/**
 * The four record kinds of the pereval store (submitter, coordinates,
 * pass, photo), their field rules, and the store itself: four tables keyed
 * by auto-increment ids, with the foreign keys between them.
 */
module Records {
  import opened Wrappers

  /** A server timestamp; the clock is a parameter of the operations that read it. */
  type Time = int

  /** Moderation status of a pass. */
  datatype Status = New | Pending | Accepted | Rejected {

    /** The value stored in the `status` column. */
    function Code(): string {
      match this
      case New => "new"
      case Pending => "pending"
      case Accepted => "accepted"
      case Rejected => "rejected"
    }

  }

  /** Status a pass gets when the creating code does not set one. */
  const DEFAULT_STATUS: Status := New

  /** Width of the `status` column. */
  const STATUS_MAX_LENGTH: nat := 10

  /** Reads a stored status code back; only the four choices are accepted. */
  function ParseStatus(code: string): (r: Option<Status>)
    ensures r.Some? ==> r.value.Code() == code
  {
    if code == "new" then Some(New)
    else if code == "pending" then Some(Pending)
    else if code == "accepted" then Some(Accepted)
    else if code == "rejected" then Some(Rejected)
    else None
  }

  /** Every status has a code that fits its column and reads back as itself. */
  lemma StatusCodeRoundTrip(st: Status)
    ensures ParseStatus(st.Code()) == Some(st)
    ensures |st.Code()| <= STATUS_MAX_LENGTH
  {
  }

  /** The status column admits exactly four codes. */
  lemma StatusChoices(code: string)
    ensures ParseStatus(code).Some? <==> code in ["new", "pending", "accepted", "rejected"]
  {
  }

  /** The four seasons a difficulty level is given for. */
  datatype Season = Winter | Summer | Autumn | Spring

  /** The free-text fields of a pass. */
  datatype TextField = BeautyTitle | Title | OtherTitles | Connect | Level(season: Season)

  /** Every text field, in column order. */
  const TEXT_FIELDS: seq<TextField> :=
    [BeautyTitle, Title, OtherTitles, Connect, Level(Winter), Level(Summer), Level(Autumn), Level(Spring)]

  /** A text field is one of the eight columns. */
  lemma TextFieldCases(t: TextField)
    ensures || t == BeautyTitle || t == Title || t == OtherTitles || t == Connect
            || t == Level(Winter) || t == Level(Summer) || t == Level(Autumn) || t == Level(Spring)
  {
    match t {
      case Level(Winter) =>
      case Level(Summer) =>
      case Level(Autumn) =>
      case Level(Spring) =>
      case _ =>
    }
  }

  lemma AllTextFields()
    ensures forall t :: t in TEXT_FIELDS
  {
    forall t: TextField
      ensures t in TEXT_FIELDS
    {
      TextFieldCases(t);
    }
  }

  /** Length cap of a text field; `connect` is an unbounded text column. */
  function MaxLength(f: TextField): Option<nat> {
    match f
    case BeautyTitle => Some(100)
    case Title => Some(100)
    case OtherTitles => Some(255)
    case Connect => None
    case Level(_) => Some(3)
  }

  /** Whether a text field may be left blank (and so may be omitted on input). */
  predicate Blankable(f: TextField) {
    !(f.BeautyTitle? || f.Title?)
  }

  /** Column widths of the submitter and photo records. */
  const EMAIL_MAX_LENGTH: nat := 254
  const NAME_MAX_LENGTH: nat := 100
  const PHONE_MAX_LENGTH: nat := 20
  const IMAGE_TITLE_MAX_LENGTH: nat := 100
  const URL_MAX_LENGTH: nat := 200

  /** Range of the PostgreSQL `integer` column that stores the height. */
  const INT_MIN: int := -0x8000_0000
  const INT_MAX: int := 0x7FFF_FFFF

  predicate FitsCap(v: string, cap: Option<nat>) {
    cap.None? || |v| <= cap.value
  }

  /** A submitter. `email` is the lookup key but carries no unique constraint. */
  datatype User = User(email: string, fam: string, name: string, otc: string, phone: string)

  predicate UserFits(u: User) {
    && |u.email| <= EMAIL_MAX_LENGTH
    && |u.fam| <= NAME_MAX_LENGTH
    && |u.name| <= NAME_MAX_LENGTH
    && |u.otc| <= NAME_MAX_LENGTH
    && |u.phone| <= PHONE_MAX_LENGTH
  }

  /** Coordinates of a pass; latitude and longitude are opaque numbers here. */
  datatype Coords = Coords(latitude: real, longitude: real, height: int)

  /** The height fits its PostgreSQL `integer` column. */
  predicate CoordsFits(c: Coords) {
    INT_MIN <= c.height <= INT_MAX
  }

  /** A mountain-pass record, with its submitter and its own coordinates by id. */
  datatype Pass = Pass(
    beautyTitle: string,
    title: string,
    otherTitles: string,
    connect: string,
    addTime: Time,
    levelWinter: string,
    levelSummer: string,
    levelAutumn: string,
    levelSpring: string,
    status: Status,
    user: nat,
    coords: nat)
  {
    function Level(season: Season): string {
      match season
      case Winter => levelWinter
      case Summer => levelSummer
      case Autumn => levelAutumn
      case Spring => levelSpring
    }

    function Text(f: TextField): string {
      match f
      case BeautyTitle => beautyTitle
      case Title => title
      case OtherTitles => otherTitles
      case Connect => connect
      case Level(season) => Level(season)
    }
  }

  ghost predicate PassFits(p: Pass) {
    forall f: TextField :: FitsCap(p.Text(f), MaxLength(f))
  }

  /** A photo of a pass: only its title and URL are stored. */
  datatype Image = Image(pass: nat, title: string, imageUrl: string)

  predicate ImageFits(img: Image) {
    |img.title| <= IMAGE_TITLE_MAX_LENGTH && |img.imageUrl| <= URL_MAX_LENGTH
  }

  /** The four tables and the next id of each table's sequence. */
  datatype Tables = Tables(
    users: map<nat, User>,
    coords: map<nat, Coords>,
    passes: map<nat, Pass>,
    images: map<nat, Image>,
    nextUser: nat,
    nextCoords: nat,
    nextPass: nat,
    nextImage: nat)
  {
    /** Every id in use was handed out by its table's sequence. */
    predicate Allocated() {
      && (forall id :: id in users ==> id < nextUser)
      && (forall id :: id in coords ==> id < nextCoords)
      && (forall id :: id in passes ==> id < nextPass)
      && (forall id :: id in images ==> id < nextImage)
    }
  }

  /** A store whose ids all come from its sequences. */
  type Store = t: Tables | t.Allocated() witness Tables(map[], map[], map[], map[], 0, 0, 0, 0)

  /** Foreign keys resolve: passes to a submitter and coordinates, photos to a pass; no coordinates are shared. */
  predicate Linked(s: Store) {
    && (forall id :: id in s.passes ==> s.passes[id].user in s.users && s.passes[id].coords in s.coords)
    && (forall a, b :: a in s.passes && b in s.passes && a != b ==> s.passes[a].coords != s.passes[b].coords)
    && (forall i :: i in s.images ==> s.images[i].pass in s.passes)
  }

  /** Every stored value fits its column. */
  ghost predicate Fits(s: Store) {
    && (forall id :: id in s.users ==> UserFits(s.users[id]))
    && (forall id :: id in s.coords ==> CoordsFits(s.coords[id]))
    && (forall id :: id in s.passes ==> PassFits(s.passes[id]))
    && (forall i :: i in s.images ==> ImageFits(s.images[i]))
  }

  ghost predicate Valid(s: Store) {
    Linked(s) && Fits(s)
  }

  /** Foreign keys stay resolved when rows are rewritten without changing a link. */
  lemma LinkedSameLinks(s: Store, s': Store)
    requires Linked(s)
    requires s'.users.Keys == s.users.Keys && s'.coords.Keys == s.coords.Keys && s'.passes.Keys == s.passes.Keys
    requires forall k :: k in s.passes ==> s'.passes[k].user == s.passes[k].user && s'.passes[k].coords == s.passes[k].coords
    requires s'.images == s.images
    ensures Linked(s')
  {
  }

  /** No two submitters share an email. The schema does not enforce this. */
  predicate UniqueEmails(s: Store) {
    forall a, b :: a in s.users && b in s.users && a != b ==> s.users[a].email != s.users[b].email
  }

  /** The members of `ids` below `n`, in increasing order: what a scan of a table in id order returns. */
  function Ascending(ids: set<nat>, n: nat): (r: seq<nat>)
    ensures forall i :: 0 <= i < |r| ==> r[i] in ids && r[i] < n
    ensures forall k :: k in ids && k < n ==> k in r
    ensures forall i, j :: 0 <= i < j < |r| ==> r[i] < r[j]
  {
    if n == 0 then []
    else
      var prefix := Ascending(ids, n - 1);
      if n - 1 in ids then prefix + [n - 1] else prefix
  }

  /** The ids of the submitters with the given email, in id order. */
  function UsersWithEmail(s: Store, email: string): (r: seq<nat>)
    ensures forall id :: id in r <==> id in s.users && s.users[id].email == email
    ensures forall i, j :: 0 <= i < j < |r| ==> r[i] < r[j]
  {
    Ascending((set id | id in s.users && s.users[id].email == email), s.nextUser)
  }

  /** The ids of the photos of a pass, in id order. */
  function ImagesOf(s: Store, pass: nat): (r: seq<nat>)
    ensures forall id :: id in r <==> id in s.images && s.images[id].pass == pass
    ensures forall i, j :: 0 <= i < j < |r| ==> r[i] < r[j]
  {
    Ascending((set id | id in s.images && s.images[id].pass == pass), s.nextImage)
  }

  /** `Ascending` looks only at the members below its bound. */
  lemma {:induction false} AscendingAgree(ids: set<nat>, ids': set<nat>, n: nat)
    requires forall k :: k < n ==> (k in ids <==> k in ids')
    ensures Ascending(ids, n) == Ascending(ids', n)
  {
    if n > 0 {
      AscendingAgree(ids, ids', n - 1);
    }
  }

  /** The ids `lo`, `lo + 1`, ..., `hi - 1`. */
  function Block(lo: nat, hi: nat): (r: seq<nat>)
    decreases hi
  {
    if hi <= lo then [] else Block(lo, hi - 1) + [hi - 1]
  }

  /** `Block(lo, hi)` has `hi - lo` elements and counts up from `lo`. */
  lemma {:induction false} BlockIndex(lo: nat, hi: nat)
    requires lo <= hi
    ensures |Block(lo, hi)| == hi - lo
    ensures forall i :: 0 <= i < hi - lo ==> Block(lo, hi)[i] == lo + i
  {
    if lo < hi {
      BlockIndex(lo, hi - 1);
    }
  }

  /** When the members below `n` form the block `[lo, hi)`, the scan lists that block. */
  lemma {:induction false} AscendingBlock(ids: set<nat>, n: nat, lo: nat, hi: nat)
    requires lo <= hi <= n
    requires forall k :: k < n ==> (k in ids <==> lo <= k < hi)
    ensures Ascending(ids, n) == Block(lo, hi)
    decreases n
  {
    if lo == hi {
      AscendingNone(ids, n);
    } else if n > hi {
      AscendingBlock(ids, n - 1, lo, hi);
      AscendingStep(ids, n);
    } else {
      AscendingBlock(ids, n - 1, lo, hi - 1);
      AscendingStep(ids, n);
    }
  }

  /** One step of the scan: id `n - 1` is listed last exactly when it is a member. */
  lemma AscendingStep(ids: set<nat>, n: nat)
    requires n > 0
    ensures Ascending(ids, n) == Ascending(ids, n - 1) + (if n - 1 in ids then [n - 1] else [])
  {
  }

  /** With no member below `n`, the scan is empty. */
  lemma {:induction false} AscendingNone(ids: set<nat>, n: nat)
    requires forall k :: k < n ==> k !in ids
    ensures Ascending(ids, n) == []
  {
    if n > 0 {
      AscendingNone(ids, n - 1);
      AscendingStep(ids, n);
    }
  }

  /** Whether `s'` is `s` with rows appended: existing rows unchanged, new ids exactly the newly handed-out ones. */
  predicate Grows<T(==)>(m: map<nat, T>, m': map<nat, T>, lo: nat, hi: nat) {
    && lo <= hi
    && (forall k :: k in m ==> k in m' && m'[k] == m[k])
    && (forall k :: k in m' && k !in m ==> lo <= k < hi)
    && (forall k :: lo <= k < hi ==> k in m')
  }

  predicate Extends(s: Store, s': Store) {
    && Grows(s.users, s'.users, s.nextUser, s'.nextUser)
    && Grows(s.coords, s'.coords, s.nextCoords, s'.nextCoords)
    && Grows(s.passes, s'.passes, s.nextPass, s'.nextPass)
    && Grows(s.images, s'.images, s.nextImage, s'.nextImage)
  }

  /** Number of rows inserted between two stores one of which extends the other. */
  function Inserted(s: Store, s': Store): int {
    (s'.nextUser - s.nextUser) + (s'.nextCoords - s.nextCoords)
    + (s'.nextPass - s.nextPass) + (s'.nextImage - s.nextImage)
  }

  lemma ExtendsTrans(s1: Store, s2: Store, s3: Store)
    requires Extends(s1, s2) && Extends(s2, s3)
    ensures Extends(s1, s3)
    ensures Inserted(s1, s3) == Inserted(s1, s2) + Inserted(s2, s3)
  {
  }

  function InsertUser(s: Store, u: User): Store {
    s.(users := s.users[s.nextUser := u], nextUser := s.nextUser + 1)
  }

  function InsertCoords(s: Store, c: Coords): Store {
    s.(coords := s.coords[s.nextCoords := c], nextCoords := s.nextCoords + 1)
  }

  function InsertPass(s: Store, p: Pass): Store {
    s.(passes := s.passes[s.nextPass := p], nextPass := s.nextPass + 1)
  }

  /** Whether `k` lies in `[lo, hi)`. */
  predicate InRange(k: nat, lo: nat, hi: nat) {
    lo <= k < hi
  }

  /** The photo rows `rows` laid out at consecutive ids from `base`. */
  function ImageRows(base: nat, rows: seq<Image>): (m: map<nat, Image>)
    ensures forall k :: k in m <==> base <= k < base + |rows|
    ensures forall k :: base <= k < base + |rows| ==> m[k] == rows[k - base]
  {
    map k: nat {:trigger InRange(k, base, base + |rows|)} | base <= k < base + |rows| && InRange(k, base, base + |rows|) :: rows[k - base]
  }

  /** A photo table made of `older` plus `rows` from `base`: what sits at id `k`. */
  lemma RowsAt(images: map<nat, Image>, older: map<nat, Image>, base: nat, rows: seq<Image>, k: nat)
    requires images == older + ImageRows(base, rows)
    ensures base <= k < base + |rows| ==> k in images && images[k] == rows[k - base]
    ensures !(base <= k < base + |rows|) ==> (k in images <==> k in older) && (k in older ==> images[k] == older[k])
  {
  }

  /** Appends the photo rows `rows` at the next ids of the photo table. */
  function AppendImages(s: Store, rows: seq<Image>): (r: Store)
    ensures r.images == s.images + ImageRows(s.nextImage, rows)
    ensures r.nextImage == s.nextImage + |rows|
    ensures r.users == s.users && r.coords == s.coords && r.passes == s.passes
    ensures r.nextUser == s.nextUser && r.nextCoords == s.nextCoords && r.nextPass == s.nextPass
  {
    s.(images := s.images + ImageRows(s.nextImage, rows), nextImage := s.nextImage + |rows|)
  }

  lemma AppendImagesExtends(s: Store, rows: seq<Image>)
    ensures Extends(s, AppendImages(s, rows)) && Inserted(s, AppendImages(s, rows)) == |rows|
  {
  }

  /** A new submitter keeps the store valid when it fits its columns. */
  lemma InsertUserValid(s: Store, u: User)
    requires Valid(s) && UserFits(u)
    ensures Valid(InsertUser(s, u))
  {
  }

  /** A new submitter keeps emails unique when no submitter has its email. */
  lemma InsertUserUnique(s: Store, u: User)
    requires UniqueEmails(s)
    requires forall id :: id in s.users ==> s.users[id].email != u.email
    ensures UniqueEmails(InsertUser(s, u))
  {
  }

  /** A new coordinates row whose height fits, owned by no pass yet, keeps the store valid. */
  lemma InsertCoordsValid(s: Store, c: Coords)
    requires Valid(s) && CoordsFits(c)
    ensures Valid(InsertCoords(s, c))
  {
  }

  /** A new pass keeps the store valid when it fits, names a stored submitter and owns coordinates no other pass owns. */
  lemma InsertPassValid(s: Store, p: Pass)
    requires Valid(s) && PassFits(p)
    requires p.user in s.users && p.coords in s.coords
    requires forall id :: id in s.passes ==> s.passes[id].coords != p.coords
    ensures Valid(InsertPass(s, p))
  {
    var r := InsertPass(s, p);
    assert forall id :: id in r.passes ==> r.passes[id] == if id == s.nextPass then p else s.passes[id];
  }

  /** New photo rows keep the store valid when they fit and each names a stored pass. */
  lemma AppendImagesValid(s: Store, rows: seq<Image>)
    requires Valid(s)
    requires forall i :: 0 <= i < |rows| ==> rows[i].pass in s.passes && ImageFits(rows[i])
    ensures Valid(AppendImages(s, rows))
  {
    var r := AppendImages(s, rows);
    ImageRowsOk(s.nextImage, rows, s.passes);
    ImagesJoin(s.images, ImageRows(s.nextImage, rows), s.passes);
    assert ImagesOk(r.images, r.passes);
  }

  /** Whether every photo row names a pass of `passes` and fits its columns. */
  predicate ImagesOk(images: map<nat, Image>, passes: map<nat, Pass>) {
    forall i :: i in images ==> images[i].pass in passes && ImageFits(images[i])
  }

  lemma ImageRowsOk(base: nat, rows: seq<Image>, passes: map<nat, Pass>)
    requires forall i :: 0 <= i < |rows| ==> rows[i].pass in passes && ImageFits(rows[i])
    ensures ImagesOk(ImageRows(base, rows), passes)
  {
    var m := ImageRows(base, rows);
    forall i | i in m
      ensures m[i].pass in passes && ImageFits(m[i])
    {
      assert m[i] == rows[i - base];
    }
  }

  lemma ImagesJoin(a: map<nat, Image>, b: map<nat, Image>, passes: map<nat, Pass>)
    requires ImagesOk(a, passes) && ImagesOk(b, passes)
    ensures ImagesOk(a + b, passes)
  {
  }
}
