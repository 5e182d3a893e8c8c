/**
 * `save()` of the create serializer: resolve the submitter by email
 * (get-or-create), insert the coordinates, the pass and one photo row per
 * payload element. Nothing wraps these inserts in a transaction, so an
 * insert that raises leaves every earlier insert in place. Which insert
 * raises, if any, is the parameter `failAt`: the index of that write.
 */
module AddedSerializer {
  import opened Wrappers
  import opened Records
  import opened Validation

  /** What `save()` raised. */
  datatype SaveError =
    | UserRejected(fields: set<Field>)        // the nested submitter serializer refused its data
    | MultipleUsersReturned(email: string)    // the lookup by email found more than one submitter
    | WriteFailed(write: nat)                 // the store raised on this insert

  /** A part of saving that may raise; `writes` counts the inserts done so far. */
  datatype Step<T> = Done(store: Store, writes: nat, value: T) | Raise(store: Store, error: SaveError)

  /** The result of `save()`: the new pass id, or the exception and the store as it was left. */
  datatype Outcome = Saved(store: Store, pass: nat) | Raised(store: Store, error: SaveError)

  /** Whether insert number `w` raises. */
  predicate Raises(failAt: Option<nat>, w: nat) {
    failAt == Some(w)
  }

  /** The submitter row created when none has the email; absent optional fields become `""`. */
  function NewUser(u: UserData): User {
    User(u.email, u.fam, u.name, u.otc.GetOr(""), u.phone.GetOr(""))
  }

  /** The pass row: `status` is never taken from the payload, `add_time` falls back to the clock. */
  function NewPass(d: PassData, now: Time, user: nat, coords: nat): Pass {
    Pass(
      d.beautyTitle, d.title, d.otherTitles.GetOr(""), d.connect.GetOr(""), d.addTime.GetOr(now),
      d.levelWinter.GetOr(""), d.levelSummer.GetOr(""), d.levelAutumn.GetOr(""), d.levelSpring.GetOr(""),
      DEFAULT_STATUS, user, coords)
  }

  /** Only the submitter table changed between the two stores. */
  predicate OnlyUsersChanged(s: Store, s': Store) {
    && s'.coords == s.coords && s'.passes == s.passes && s'.images == s.images
    && s'.nextCoords == s.nextCoords && s'.nextPass == s.nextPass && s'.nextImage == s.nextImage
  }

  /**
   * `get_or_create(email=..., defaults=...)`: reuse the one submitter with
   * the email unchanged, create one when there is none (insert number 0), and
   * raise when there are several.
   */
  function GetOrCreateUser(s: Store, u: UserData, failAt: Option<nat>): (r: Step<nat>)
    ensures var found := UsersWithEmail(s, u.email);
      && (r.Done? <==> |found| == 1 || (|found| == 0 && !Raises(failAt, 0)))
      && (r.Raise? ==> r.store == s)
      && (r.Done? ==>
            && Extends(s, r.store) && OnlyUsersChanged(s, r.store) && Inserted(s, r.store) == r.writes
            && r.value in r.store.users && r.store.users[r.value].email == u.email)
      && (|found| == 1 ==> r == Done(s, 0, found[0]))
      && (|found| > 1 ==> r == Raise(s, MultipleUsersReturned(u.email)))
      && (|found| == 0 && r.Done? ==>
            r.value == s.nextUser && r.store.users == s.users[s.nextUser := NewUser(u)])
  {
    var found := UsersWithEmail(s, u.email);
    if |found| == 1 then Done(s, 0, found[0])
    else if |found| > 1 then Raise(s, MultipleUsersReturned(u.email))
    else if Raises(failAt, 0) then Raise(s, WriteFailed(0))
    else Done(InsertUser(s, NewUser(u)), 1, s.nextUser)
  }

  lemma ImageRowsConcat(base: nat, a: seq<Image>, b: seq<Image>)
    ensures ImageRows(base, a) + ImageRows(base + |a|, b) == ImageRows(base, a + b)
  {
    var lhs := ImageRows(base, a) + ImageRows(base + |a|, b);
    var rhs := ImageRows(base, a + b);
    assert lhs.Keys == rhs.Keys;
    forall k | k in lhs
      ensures lhs[k] == rhs[k]
    {
      if k < base + |a| {
        assert (a + b)[k - base] == a[k - base];
      } else {
        assert (a + b)[k - base] == b[k - base - |a|];
      }
    }
  }

  lemma UnionAssoc<K, V>(m: map<K, V>, x: map<K, V>, y: map<K, V>)
    ensures (m + x) + y == m + (x + y)
  {
  }

  lemma AppendImagesTwice(s: Store, a: seq<Image>, b: seq<Image>)
    ensures AppendImages(AppendImages(s, a), b) == AppendImages(s, a + b)
  {
    var n := s.nextImage;
    var x := AppendImages(AppendImages(s, a), b);
    var ra, rb := ImageRows(n, a), ImageRows(n + |a|, b);
    assert x.images == (s.images + ra) + rb;
    UnionAssoc(s.images, ra, rb);
    ImageRowsConcat(n, a, b);
    var y := AppendImages(s, a + b);
    assert x.images == y.images;
  }

  /** The photo loop: insert `rows` in order, the first as insert number `w`. */
  function CreateImages(s: Store, rows: seq<Image>, w: nat, failAt: Option<nat>): Step<()>
    decreases |rows|
  {
    if rows == [] then Done(s, w, ())
    else if Raises(failAt, w) then Raise(s, WriteFailed(w))
    else CreateImages(AppendImages(s, [rows[0]]), rows[1..], w + 1, failAt)
  }

  /** With no raising insert among its own, the photo loop stores every row. */
  lemma {:induction false} CreateImagesDone(s: Store, rows: seq<Image>, w: nat, failAt: Option<nat>)
    requires failAt.None? || failAt.value < w || failAt.value >= w + |rows|
    ensures CreateImages(s, rows, w, failAt) == Done(AppendImages(s, rows), w + |rows|, ())
    decreases |rows|
  {
    if rows == [] {
      assert AppendImages(s, []) == s;
    } else {
      var s' := AppendImages(s, [rows[0]]);
      CreateImagesDone(s', rows[1..], w + 1, failAt);
      AppendImagesTwice(s, [rows[0]], rows[1..]);
      assert [rows[0]] + rows[1..] == rows;
    }
  }

  /** When insert `failAt` is one of the loop's, exactly the rows before it are stored. */
  lemma {:induction false} CreateImagesRaise(s: Store, rows: seq<Image>, w: nat, failAt: Option<nat>)
    requires failAt.Some? && w <= failAt.value < w + |rows|
    ensures CreateImages(s, rows, w, failAt)
      == Raise(AppendImages(s, rows[..failAt.value - w]), WriteFailed(failAt.value))
    decreases |rows|
  {
    if Raises(failAt, w) {
      assert rows[..0] == [];
      assert AppendImages(s, []) == s;
    } else {
      var s' := AppendImages(s, [rows[0]]);
      var k := failAt.value - w;
      assert 1 <= k < |rows|;
      assert CreateImages(s, rows, w, failAt) == CreateImages(s', rows[1..], w + 1, failAt);
      CreateImagesRaise(s', rows[1..], w + 1, failAt);
      var before := rows[1..][..k - 1];
      AppendImagesTwice(s, [rows[0]], before);
      assert [rows[0]] + before == rows[..k];
    }
  }

  /**
   * The photo loop completes unless one of its inserts raises; then exactly
   * the rows before the raising one are stored.
   */
  lemma CreateImagesSpec(s: Store, rows: seq<Image>, w: nat, failAt: Option<nat>)
    ensures var r := CreateImages(s, rows, w, failAt);
      && (r.Done? <==> failAt.None? || failAt.value < w || failAt.value >= w + |rows|)
      && (r.Done? ==> r.store == AppendImages(s, rows) && r.writes == w + |rows|)
      && (r.Raise? ==>
            && failAt.Some? && w <= failAt.value < w + |rows|
            && r.error == WriteFailed(failAt.value)
            && r.store == AppendImages(s, rows[..failAt.value - w]))
  {
    if failAt.Some? && w <= failAt.value < w + |rows| {
      CreateImagesRaise(s, rows, w, failAt);
    } else {
      CreateImagesDone(s, rows, w, failAt);
    }
  }

  /**
   * The inserts after the submitter is resolved: the coordinates (insert
   * number `w`), the pass (`w + 1`) and the photos (from `w + 2`).
   */
  function SavePass(s: Store, w: nat, user: nat, d: PassData, now: Time, failAt: Option<nat>): Outcome {
    if Raises(failAt, w) then Raised(s, WriteFailed(w))
    else
      var s2 := InsertCoords(s, d.coords);
      if Raises(failAt, w + 1) then Raised(s2, WriteFailed(w + 1))
      else
        SavePhotos(InsertPass(s2, NewPass(d, now, user, s.nextCoords)), s2.nextPass, w + 2, d.images, failAt)
  }

  /** The photo inserts of a save for pass `pass`, the first as insert number `w`. */
  function SavePhotos(s: Store, pass: nat, w: nat, imgs: seq<ImageData>, failAt: Option<nat>): Outcome {
    match CreateImages(s, AttachAll(pass, imgs), w, failAt)
    case Raise(s4, e) => Raised(s4, e)
    case Done(s4, _, _) => Saved(s4, pass)
  }

  /**
   * The store once the inserts after the submitter numbered below `write`
   * are done (the first of them being insert number `w`): nothing, the
   * coordinates, or the coordinates, the pass and the first photos in order.
   */
  function SaveLeft(s: Store, w: nat, user: nat, d: PassData, now: Time, write: nat): Store
    requires w <= write <= w + 2 + |d.images|
  {
    if write == w then s
    else if write == w + 1 then InsertCoords(s, d.coords)
    else
      AppendImages(
        InsertPass(InsertCoords(s, d.coords), NewPass(d, now, user, s.nextCoords)),
        AttachAll(s.nextPass, d.images)[..write - (w + 2)])
  }

  /** The pass, coordinates and photo tables after a successful `SavePass`; the submitters are untouched. */
  ghost predicate PassSaved(s: Store, d: PassData, now: Time, user: nat, s': Store, pass: nat) {
    && pass == s.nextPass
    && pass in s'.passes
    && var p := s'.passes[pass];
    // exactly one new pass; every earlier pass unchanged
    && s'.passes == s.passes[pass := p]
    && p.user == user
    // exactly one new coordinates row, owned by the new pass
    && p.coords == s.nextCoords
    && s'.coords == s.coords[s.nextCoords := d.coords]
    && s'.users == s.users
    // the pass fields
    && p.status == New
    && p.addTime == d.addTime.GetOr(now)
    && (forall t :: p.Text(t) == d.Text(t).GetOr(""))
    // one photo row per payload element, at consecutive ids in payload order
    && s'.images == s.images + ImageRows(s.nextImage, AttachAll(pass, d.images))
  }

  lemma NewPassFields(d: PassData, now: Time, user: nat, coords: nat)
    ensures var p := NewPass(d, now, user, coords);
      && p.status == New && p.addTime == d.addTime.GetOr(now) && p.user == user && p.coords == coords
      && forall t :: p.Text(t) == d.Text(t).GetOr("")
  {
    var p := NewPass(d, now, user, coords);
    forall t: TextField
      ensures p.Text(t) == d.Text(t).GetOr("")
    {
      TextFieldCases(t);
    }
  }

  /** The inserts after the submitter stop exactly at the raising insert, keeping exactly the earlier ones. */
  lemma SavePassOutcome(s: Store, w: nat, user: nat, d: PassData, now: Time, failAt: Option<nat>)
    ensures var r := SavePass(s, w, user, d, now, failAt);
      && (r.Saved? <==> failAt.None? || failAt.value < w || failAt.value >= w + 2 + |d.images|)
      && (r.Saved? ==> Inserted(s, r.store) == 2 + |d.images|)
      && (r.Raised? ==>
            && r.error.WriteFailed? && failAt == Some(r.error.write)
            && Inserted(s, r.store) == r.error.write - w)
      && (r.Saved? ==> r.store == SaveLeft(s, w, user, d, now, w + 2 + |d.images|))
      && (r.Raised? ==> w <= r.error.write < w + 2 + |d.images| && r.store == SaveLeft(s, w, user, d, now, r.error.write))
  {
    SavePassCounts(s, w, user, d, now, failAt);
    SavePassLeaves(s, w, user, d, now, failAt);
  }

  /** The inserts after the submitter stop exactly at the raising insert; counted in inserts. */
  lemma SavePassCounts(s: Store, w: nat, user: nat, d: PassData, now: Time, failAt: Option<nat>)
    ensures var r := SavePass(s, w, user, d, now, failAt);
      && (r.Saved? <==> failAt.None? || failAt.value < w || failAt.value >= w + 2 + |d.images|)
      && (r.Saved? ==> Inserted(s, r.store) == 2 + |d.images|)
      && (r.Raised? ==>
            && r.error.WriteFailed? && failAt == Some(r.error.write)
            && Inserted(s, r.store) == r.error.write - w)
  {
    var s2 := InsertCoords(s, d.coords);
    if Raises(failAt, w) {
      assert SavePass(s, w, user, d, now, failAt) == Raised(s, WriteFailed(w));
    } else if Raises(failAt, w + 1) {
      assert SavePass(s, w, user, d, now, failAt) == Raised(s2, WriteFailed(w + 1));
    } else {
      var s3 := InsertPass(s2, NewPass(d, now, user, s.nextCoords));
      assert SavePass(s, w, user, d, now, failAt) == SavePhotos(s3, s2.nextPass, w + 2, d.images, failAt);
      assert Inserted(s, s3) == 2;
      SavePhotosCount(s3, s2.nextPass, w + 2, d.images, failAt);
    }
  }

  /** Which rows the inserts after the submitter leave: all of them, or exactly those before the raising insert. */
  lemma SavePassLeaves(s: Store, w: nat, user: nat, d: PassData, now: Time, failAt: Option<nat>)
    ensures var r := SavePass(s, w, user, d, now, failAt);
      && (r.Saved? ==> r.store == SaveLeft(s, w, user, d, now, w + 2 + |d.images|))
      && (r.Raised? ==>
            && failAt.Some? && w <= failAt.value < w + 2 + |d.images|
            && r.error == WriteFailed(failAt.value)
            && r.store == SaveLeft(s, w, user, d, now, failAt.value))
  {
    if Raises(failAt, w) || Raises(failAt, w + 1) {
      SavePassLeavesEarly(s, w, user, d, now, failAt);
    } else {
      SavePassLeavesPhotos(s, w, user, d, now, failAt);
    }
  }

  /** A raise at the coordinates or the pass insert leaves what came before it. */
  lemma SavePassLeavesEarly(s: Store, w: nat, user: nat, d: PassData, now: Time, failAt: Option<nat>)
    requires Raises(failAt, w) || Raises(failAt, w + 1)
    ensures var r := SavePass(s, w, user, d, now, failAt);
      && r.Raised? && failAt.Some? && w <= failAt.value < w + 2
      && r.error == WriteFailed(failAt.value)
      && r.store == SaveLeft(s, w, user, d, now, failAt.value)
  {
    if Raises(failAt, w) {
      assert SavePass(s, w, user, d, now, failAt) == Raised(s, WriteFailed(w));
    } else {
      assert SavePass(s, w, user, d, now, failAt) == Raised(InsertCoords(s, d.coords), WriteFailed(w + 1));
    }
  }

  /** Past the pass insert, what is left is the pass stage plus the photo rows stored. */
  lemma SavePassLeavesPhotos(s: Store, w: nat, user: nat, d: PassData, now: Time, failAt: Option<nat>)
    requires !Raises(failAt, w) && !Raises(failAt, w + 1)
    ensures var r := SavePass(s, w, user, d, now, failAt);
      && (r.Saved? ==> r.store == SaveLeft(s, w, user, d, now, w + 2 + |d.images|))
      && (r.Raised? ==>
            && failAt.Some? && w <= failAt.value < w + 2 + |d.images|
            && r.error == WriteFailed(failAt.value)
            && r.store == SaveLeft(s, w, user, d, now, failAt.value))
  {
    SavePassPhotos(s, w, user, d, now, failAt);
    PassStageLeaves(s, w, user, d, now, failAt);
  }

  /** The photo inserts on top of the pass stage leave `SaveLeft` at the insert they reach. */
  lemma PassStageLeaves(s: Store, w: nat, user: nat, d: PassData, now: Time, failAt: Option<nat>)
    ensures var r := SavePhotos(PassStage(s, user, d, now), s.nextPass, w + 2, d.images, failAt);
      && (r.Saved? ==> r.store == SaveLeft(s, w, user, d, now, w + 2 + |d.images|))
      && (r.Raised? ==>
            && failAt.Some? && w + 2 <= failAt.value < w + 2 + |d.images|
            && r.error == WriteFailed(failAt.value)
            && r.store == SaveLeft(s, w, user, d, now, failAt.value))
  {
    var s3, rows := PassStage(s, user, d, now), AttachAll(s.nextPass, d.images);
    SavePhotosLeaves(s3, s.nextPass, w + 2, d.images, failAt);
    if SavePhotos(s3, s.nextPass, w + 2, d.images, failAt).Saved? {
      SaveLeftPhotos(s, w, user, d, now, w + 2 + |d.images|);
      TakeAll(rows);
    } else {
      SaveLeftPhotos(s, w, user, d, now, failAt.value);
    }
  }

  /** The store once the coordinates and the pass are inserted. */
  function PassStage(s: Store, user: nat, d: PassData, now: Time): Store {
    InsertPass(InsertCoords(s, d.coords), NewPass(d, now, user, s.nextCoords))
  }

  /** Past its first two inserts, `SavePass` is the photo inserts on top of the pass stage. */
  lemma SavePassPhotos(s: Store, w: nat, user: nat, d: PassData, now: Time, failAt: Option<nat>)
    requires !Raises(failAt, w) && !Raises(failAt, w + 1)
    ensures SavePass(s, w, user, d, now, failAt) == SavePhotos(PassStage(s, user, d, now), s.nextPass, w + 2, d.images, failAt)
  {
  }

  /** Past the pass insert, what is left is the pass stage plus the first photo rows. */
  lemma SaveLeftPhotos(s: Store, w: nat, user: nat, d: PassData, now: Time, write: nat)
    requires w + 2 <= write <= w + 2 + |d.images|
    ensures SaveLeft(s, w, user, d, now, write)
      == AppendImages(PassStage(s, user, d, now), AttachAll(s.nextPass, d.images)[..write - (w + 2)])
  {
  }

  /** The photo inserts store all the rows, or exactly those before the raising insert. */
  lemma SavePhotosLeaves(s: Store, pass: nat, w: nat, imgs: seq<ImageData>, failAt: Option<nat>)
    ensures var r, rows := SavePhotos(s, pass, w, imgs, failAt), AttachAll(pass, imgs);
      && (r.Saved? ==> r.store == AppendImages(s, rows))
      && (r.Raised? ==>
            && failAt.Some? && w <= failAt.value < w + |imgs|
            && r.error == WriteFailed(failAt.value)
            && r.store == AppendImages(s, rows[..failAt.value - w]))
  {
    CreateImagesSpec(s, AttachAll(pass, imgs), w, failAt);
  }

  /** Taking every row of a list gives the list. */
  lemma TakeAll(rows: seq<Image>)
    ensures rows[..|rows|] == rows
  {
  }

  /** How far the photo inserts get, counted in inserts. */
  lemma SavePhotosCount(s: Store, pass: nat, w: nat, imgs: seq<ImageData>, failAt: Option<nat>)
    ensures var r := SavePhotos(s, pass, w, imgs, failAt);
      && (r.Saved? <==> failAt.None? || failAt.value < w || failAt.value >= w + |imgs|)
      && (r.Saved? ==> Inserted(s, r.store) == |imgs|)
      && (r.Raised? ==> failAt.Some? && r.error == WriteFailed(failAt.value) && Inserted(s, r.store) == failAt.value - w)
  {
    CreateImagesSpec(s, AttachAll(pass, imgs), w, failAt);
  }

  /** The photo loop only appends rows, one per insert that did not raise. */
  lemma {:induction false} CreateImagesExtends(s: Store, rows: seq<Image>, w: nat, failAt: Option<nat>)
    ensures var r := CreateImages(s, rows, w, failAt);
      Extends(s, r.store) && (r.Done? ==> Inserted(s, r.store) == r.writes - w)
    decreases |rows|
  {
    if rows != [] && !Raises(failAt, w) {
      var s' := AppendImages(s, [rows[0]]);
      AppendImagesExtends(s, [rows[0]]);
      CreateImagesExtends(s', rows[1..], w + 1, failAt);
      ExtendsTrans(s, s', CreateImages(s', rows[1..], w + 1, failAt).store);
    }
  }

  /** The inserts after the submitter only append rows, whether or not one raises. */
  lemma SavePassExtends(s: Store, w: nat, user: nat, d: PassData, now: Time, failAt: Option<nat>)
    ensures Extends(s, SavePass(s, w, user, d, now, failAt).store)
  {
    var s2 := InsertCoords(s, d.coords);
    var p := NewPass(d, now, user, s.nextCoords);
    if Raises(failAt, w) {
      assert SavePass(s, w, user, d, now, failAt).store == s;
    } else if Raises(failAt, w + 1) {
      assert SavePass(s, w, user, d, now, failAt).store == s2;
      InsertsExtend(s, d.coords, p, []);
    } else {
      var s3 := InsertPass(s2, p);
      var rows := AttachAll(s2.nextPass, d.images);
      var r4 := CreateImages(s3, rows, w + 2, failAt);
      assert SavePass(s, w, user, d, now, failAt).store == r4.store;
      CreateImagesSpec(s3, rows, w + 2, failAt);
      var stored := if r4.Done? then rows else rows[..failAt.value - (w + 2)];
      assert r4.store == AppendImages(s3, stored);
      InsertsExtend(s, d.coords, p, stored);
    }
  }

  /** Coordinates, then a pass, then photo rows: every earlier row stays as it was. */
  lemma InsertsExtend(s: Store, c: Coords, p: Pass, rows: seq<Image>)
    ensures Extends(s, InsertCoords(s, c))
    ensures Extends(s, AppendImages(InsertPass(InsertCoords(s, c), p), rows))
  {
  }


  /** A successful run of the inserts after the submitter leaves the tables `PassSaved` describes. */
  lemma SavePassEffect(s: Store, w: nat, user: nat, d: PassData, now: Time, failAt: Option<nat>)
    requires SavePass(s, w, user, d, now, failAt).Saved?
    ensures var r := SavePass(s, w, user, d, now, failAt);
      PassSaved(s, d, now, user, r.store, r.pass)
  {
    var r := SavePass(s, w, user, d, now, failAt);
    var s2 := InsertCoords(s, d.coords);
    var pass := s2.nextPass;
    var p := NewPass(d, now, user, s.nextCoords);
    var s3 := InsertPass(s2, p);
    var rows := AttachAll(pass, d.images);
    CreateImagesSpec(s3, rows, w + 2, failAt);
    assert r.store == AppendImages(s3, rows);
    NewPassFields(d, now, user, s.nextCoords);
  }

  /** Number of inserts a successful save performs. */
  function WritesNeeded(s: Store, d: PassData): nat {
    (if |UsersWithEmail(s, d.user.email)| == 0 then 1 else 0) + 2 + |d.images|
  }

  /**
   * The store once the inserts of a save numbered below `write` are done:
   * the new submitter first when no submitter has the email, then the
   * inserts `SaveLeft` lists.
   */
  function CreateLeft(s: Store, d: PassData, now: Time, write: nat): Store
    requires |UsersWithEmail(s, d.user.email)| <= 1 && write <= WritesNeeded(s, d)
  {
    var found := UsersWithEmail(s, d.user.email);
    if |found| == 1 then SaveLeft(s, 0, found[0], d, now, write)
    else if write == 0 then s
    else SaveLeft(InsertUser(s, NewUser(d.user)), 1, s.nextUser, d, now, write)
  }

  /** The effect of a successful save, stated table by table. */
  ghost predicate SubmitEffect(s: Store, d: PassData, now: Time, s': Store, pass: nat) {
    var found := UsersWithEmail(s, d.user.email);
    && |found| <= 1
    && pass in s'.passes
    // the submitter: the existing one with the email, unchanged, or exactly one new one
    && (|found| == 1 ==> s'.passes[pass].user == found[0] && PassSaved(s, d, now, found[0], s', pass))
    && (|found| == 0 ==>
          && s'.passes[pass].user == s.nextUser
          && PassSaved(InsertUser(s, NewUser(d.user)), d, now, s.nextUser, s', pass))
  }

  /** The new pass of a successful save carries the sent texts, absent ones as `""`, and status `new`. */
  lemma SubmitEffectPass(s: Store, d: PassData, now: Time, s': Store, pass: nat)
    requires SubmitEffect(s, d, now, s', pass)
    ensures pass in s'.passes && s'.passes[pass].status == New
    ensures forall t :: s'.passes[pass].Text(t) == d.Text(t).GetOr("")
  {
    if |UsersWithEmail(s, d.user.email)| == 0 {
      assert PassSaved(InsertUser(s, NewUser(d.user)), d, now, s.nextUser, s', pass);
    }
  }

  /**
   * `PerevalAddedSerializer.create`: the nested submitter serializer
   * validates its data again and resolves the submitter; then the
   * coordinates, the pass and the photos are inserted one by one.
   */
  function Create(sx: Syntax, s: Store, d: PassData, now: Time, failAt: Option<nat>): Outcome {
    match ValidateUser(sx, UserInputOf(d.user))
    case Failure(errs) => Raised(s, UserRejected(errs))
    case Success(u) =>
      match GetOrCreateUser(s, u, failAt)
      case Raise(s1, e) => Raised(s1, e)
      case Done(s1, w, user) => SavePass(s1, w, user, d, now, failAt)
  }

  /** Once the submitter is resolved, `save()` is the rest of the inserts. */
  lemma CreateAfterUser(sx: Syntax, s: Store, d: PassData, now: Time, failAt: Option<nat>)
    requires UserErrors(sx, UserInputOf(d.user)) == {}
    ensures ValidateUser(sx, UserInputOf(d.user)) == Success(d.user)
    ensures var g := GetOrCreateUser(s, d.user, failAt);
      g.Done? ==> Create(sx, s, d, now, failAt) == SavePass(g.store, g.writes, g.value, d, now, failAt)
  {
  }

  /** A successful `save()` does `WritesNeeded` inserts with the table-by-table effect `SubmitEffect`. */
  lemma CreateEffect(sx: Syntax, s: Store, d: PassData, now: Time, failAt: Option<nat>)
    requires Create(sx, s, d, now, failAt).Saved?
    ensures var r := Create(sx, s, d, now, failAt);
      Inserted(s, r.store) == WritesNeeded(s, d) && SubmitEffect(s, d, now, r.store, r.pass)
  {
    var v := ValidateUser(sx, UserInputOf(d.user));
    assert v.Success?;
    CreateAfterUser(sx, s, d, now, failAt);
    var g := GetOrCreateUser(s, d.user, failAt);
    SavePassCounts(g.store, g.writes, g.value, d, now, failAt);
    SavePassEffect(g.store, g.writes, g.value, d, now, failAt);
  }

  /**
   * What `save()` leaves behind: it succeeds exactly when the submitter
   * passes its serializer, the email names at most one submitter and no
   * insert raises; an insert that raises keeps every earlier insert.
   */
  lemma CreateSpec(sx: Syntax, s: Store, d: PassData, now: Time, failAt: Option<nat>)
    ensures var r := Create(sx, s, d, now, failAt);
      && (r.Saved? <==>
            && UserErrors(sx, UserInputOf(d.user)) == {}
            && |UsersWithEmail(s, d.user.email)| <= 1
            && (failAt.None? || failAt.value >= WritesNeeded(s, d)))
      && (r.Saved? ==> Inserted(s, r.store) == WritesNeeded(s, d) && SubmitEffect(s, d, now, r.store, r.pass))
      && (r.Raised? && r.error.WriteFailed? ==> failAt == Some(r.error.write) && Inserted(s, r.store) == r.error.write)
      && (r.Raised? && r.error.WriteFailed? ==>
            && |UsersWithEmail(s, d.user.email)| <= 1 && r.error.write < WritesNeeded(s, d)
            && r.store == CreateLeft(s, d, now, r.error.write))
      && (r.Raised? && !r.error.WriteFailed? ==> r.store == s)
  {
    CreateSaved(sx, s, d, now, failAt);
    CreateRaised(sx, s, d, now, failAt);
    if Create(sx, s, d, now, failAt).Saved? {
      CreateEffect(sx, s, d, now, failAt);
    }
  }

  /** When `save()` succeeds. */
  lemma CreateSaved(sx: Syntax, s: Store, d: PassData, now: Time, failAt: Option<nat>)
    ensures Create(sx, s, d, now, failAt).Saved? <==>
      && UserErrors(sx, UserInputOf(d.user)) == {}
      && |UsersWithEmail(s, d.user.email)| <= 1
      && (failAt.None? || failAt.value >= WritesNeeded(s, d))
  {
    if UserErrors(sx, UserInputOf(d.user)) == {} {
      ValidUserSaved(sx, s, d, now, failAt);
    } else {
      assert ValidateUser(sx, UserInputOf(d.user)).Failure?;
    }
  }

  /** When the submitter passes its serializer, `save()` succeeds exactly when the lookup and every insert do. */
  lemma ValidUserSaved(sx: Syntax, s: Store, d: PassData, now: Time, failAt: Option<nat>)
    requires UserErrors(sx, UserInputOf(d.user)) == {}
    ensures Create(sx, s, d, now, failAt).Saved? <==>
      && |UsersWithEmail(s, d.user.email)| <= 1
      && (failAt.None? || failAt.value >= WritesNeeded(s, d))
  {
    CreateAfterUser(sx, s, d, now, failAt);
    UserWrites(s, d, failAt);
    var g := GetOrCreateUser(s, d.user, failAt);
    if g.Done? {
      SavePassCounts(g.store, g.writes, g.value, d, now, failAt);
    } else {
      assert Create(sx, s, d, now, failAt) == Raised(g.store, g.error);
    }
  }

  /** The submitter lookup resolves unless the email is shared or its one insert raises, and leaves the rest of the inserts to do. */
  lemma UserWrites(s: Store, d: PassData, failAt: Option<nat>)
    ensures var found, g := UsersWithEmail(s, d.user.email), GetOrCreateUser(s, d.user, failAt);
      && (g.Done? <==> |found| == 1 || (|found| == 0 && failAt != Some(0)))
      && (g.Done? ==> g.writes + 2 + |d.images| == WritesNeeded(s, d))
      && (g.Raise? ==> |found| > 1 || failAt == Some(0))
  {
  }

  /** What a raising `save()` leaves: the inserts before the raising one, or nothing for other errors. */
  lemma CreateRaised(sx: Syntax, s: Store, d: PassData, now: Time, failAt: Option<nat>)
    ensures var r := Create(sx, s, d, now, failAt);
      && (r.Raised? && r.error.WriteFailed? ==> failAt == Some(r.error.write) && Inserted(s, r.store) == r.error.write)
      && (r.Raised? && r.error.WriteFailed? ==>
            && |UsersWithEmail(s, d.user.email)| <= 1 && r.error.write < WritesNeeded(s, d)
            && r.store == CreateLeft(s, d, now, r.error.write))
      && (r.Raised? && !r.error.WriteFailed? ==> r.store == s)
  {
    if UserErrors(sx, UserInputOf(d.user)) == {} {
      CreateAfterUser(sx, s, d, now, failAt);
      UserWrites(s, d, failAt);
      var g := GetOrCreateUser(s, d.user, failAt);
      if g.Done? {
        SavePassOutcome(g.store, g.writes, g.value, d, now, failAt);
      } else {
        assert Create(sx, s, d, now, failAt) == Raised(g.store, g.error);
      }
    } else {
      assert ValidateUser(sx, UserInputOf(d.user)).Failure?;
    }
  }

  /** `save()` never changes or removes a row that was there before, whether or not it raises. */
  lemma CreateExtends(sx: Syntax, s: Store, d: PassData, now: Time, failAt: Option<nat>)
    ensures Extends(s, Create(sx, s, d, now, failAt).store)
  {
    var v := ValidateUser(sx, UserInputOf(d.user));
    if v.Success? {
      var g := GetOrCreateUser(s, v.value, failAt);
      if g.Done? {
        SavePassExtends(g.store, g.writes, g.value, d, now, failAt);
        ExtendsTrans(s, g.store, Create(sx, s, d, now, failAt).store);
      }
    }
  }

  /** With at most one submitter per email, the lookup never finds two, so `save()` never raises `MultipleObjectsReturned`. */
  lemma UniqueEmailsAtMostOne(s: Store, email: string)
    requires UniqueEmails(s)
    ensures |UsersWithEmail(s, email)| <= 1
  {
    var r := UsersWithEmail(s, email);
    FirstTwo(r);
  }

  lemma FirstTwo(r: seq<nat>)
    requires forall i, j :: 0 <= i < j < |r| ==> r[i] < r[j]
    ensures |r| > 1 ==> r[0] in r && r[1] in r && r[0] != r[1]
  {
  }

  /** The inserts after the submitter never touch the submitter table. */
  lemma SavePassKeepsUsers(s: Store, w: nat, user: nat, d: PassData, now: Time, failAt: Option<nat>)
    ensures SavePass(s, w, user, d, now, failAt).store.users == s.users
  {
    if !Raises(failAt, w) && !Raises(failAt, w + 1) {
      var s2 := InsertCoords(s, d.coords);
      var s3 := InsertPass(s2, NewPass(d, now, user, s.nextCoords));
      CreateImagesSpec(s3, AttachAll(s2.nextPass, d.images), w + 2, failAt);
    }
  }

  /** `save()` creates a submitter only for an email no submitter has, so it keeps emails unique. */
  lemma CreateKeepsEmailsUnique(sx: Syntax, s: Store, d: PassData, now: Time, failAt: Option<nat>)
    requires UniqueEmails(s)
    ensures UniqueEmails(Create(sx, s, d, now, failAt).store)
  {
    var v := ValidateUser(sx, UserInputOf(d.user));
    if v.Success? {
      assert v.value == d.user;
      var g := GetOrCreateUser(s, d.user, failAt);
      if g.Done? {
        if |UsersWithEmail(s, d.user.email)| == 0 {
          assert g.store == InsertUser(s, NewUser(d.user));
          InsertUserUnique(s, NewUser(d.user));
        }
        SavePassKeepsUsers(g.store, g.writes, g.value, d, now, failAt);
      }
    }
  }

  /** The coordinates and the pass of a save keep the store valid. */
  lemma PassInsertValid(s: Store, d: PassData, now: Time, user: nat)
    requires Valid(s) && DataFits(d) && user in s.users
    ensures Valid(InsertCoords(s, d.coords))
    ensures Valid(InsertPass(InsertCoords(s, d.coords), NewPass(d, now, user, s.nextCoords)))
  {
    var s2 := InsertCoords(s, d.coords);
    InsertCoordsValid(s, d.coords);
    var p := NewPass(d, now, user, s.nextCoords);
    NewPassFields(d, now, user, s.nextCoords);
    assert PassFits(p) by {
      forall t: TextField
        ensures FitsCap(p.Text(t), MaxLength(t))
      {
        assert p.Text(t) == d.Text(t).GetOr("");
      }
    }
    assert forall id :: id in s2.passes ==> s2.passes[id].coords in s.coords;
    InsertPassValid(s2, p);
  }

  /** The photo loop keeps the store valid when its rows fit and name a stored pass. */
  lemma {:induction false} CreateImagesValid(s: Store, rows: seq<Image>, w: nat, failAt: Option<nat>)
    requires Valid(s)
    requires forall i :: 0 <= i < |rows| ==> rows[i].pass in s.passes && ImageFits(rows[i])
    ensures Valid(CreateImages(s, rows, w, failAt).store)
    decreases |rows|
  {
    if rows != [] && !Raises(failAt, w) {
      AppendImagesValid(s, [rows[0]]);
      CreateImagesValid(AppendImages(s, [rows[0]]), rows[1..], w + 1, failAt);
    }
  }

  /** The inserts after the submitter keep the store valid, whichever insert raises. */
  lemma SavePassValid(s: Store, w: nat, user: nat, d: PassData, now: Time, failAt: Option<nat>)
    requires Valid(s) && DataFits(d) && user in s.users
    ensures Valid(SavePass(s, w, user, d, now, failAt).store)
  {
    PassInsertValid(s, d, now, user);
    var s2 := InsertCoords(s, d.coords);
    if Raises(failAt, w) {
      assert SavePass(s, w, user, d, now, failAt).store == s;
    } else if Raises(failAt, w + 1) {
      assert SavePass(s, w, user, d, now, failAt).store == s2;
    } else {
      var s3 := InsertPass(s2, NewPass(d, now, user, s.nextCoords));
      assert SavePass(s, w, user, d, now, failAt) == SavePhotos(s3, s2.nextPass, w + 2, d.images, failAt);
      SavePhotosValid(s3, s2.nextPass, w + 2, d.images, failAt);
    }
  }

  /** The photo inserts for a stored pass keep the store valid when every photo fits its columns. */
  lemma SavePhotosValid(s: Store, pass: nat, w: nat, imgs: seq<ImageData>, failAt: Option<nat>)
    requires Valid(s) && pass in s.passes
    requires forall i :: 0 <= i < |imgs| ==> |imgs[i].title| <= IMAGE_TITLE_MAX_LENGTH && |imgs[i].imageUrl| <= URL_MAX_LENGTH
    ensures Valid(SavePhotos(s, pass, w, imgs, failAt).store)
  {
    var rows := AttachAll(pass, imgs);
    assert forall i :: 0 <= i < |rows| ==> rows[i].pass in s.passes && ImageFits(rows[i]) by {
      forall i | 0 <= i < |rows|
        ensures rows[i].pass in s.passes && ImageFits(rows[i])
      {
        assert rows[i] == imgs[i].Attach(pass);
      }
    }
    CreateImagesValid(s, rows, w, failAt);
  }

  /** A save of data that fits the columns keeps the store valid, even when it raises midway. */
  lemma CreateKeepsValid(sx: Syntax, s: Store, d: PassData, now: Time, failAt: Option<nat>)
    requires Valid(s) && DataFits(d)
    ensures Valid(Create(sx, s, d, now, failAt).store)
  {
    var v := ValidateUser(sx, UserInputOf(d.user));
    if v.Success? {
      assert v.value == d.user;
      var g := GetOrCreateUser(s, d.user, failAt);
      if g.Done? {
        if |UsersWithEmail(s, d.user.email)| == 0 {
          assert g.store == InsertUser(s, NewUser(d.user));
          InsertUserValid(s, NewUser(d.user));
        }
        SavePassValid(g.store, g.writes, g.value, d, now, failAt);
      }
    }
  }

  /** A scan in id order that finds exactly `x` is `[x]`. */
  lemma SortedSingleton(r: seq<nat>, x: nat)
    requires forall i, j :: 0 <= i < j < |r| ==> r[i] < r[j]
    requires forall id :: id in r <==> id == x
    ensures r == [x]
  {
    FirstTwo(r);
    assert x in r;
  }

  /** After a successful save, the email names exactly the submitter of the new pass. */
  lemma SavedUserIsOnly(sx: Syntax, s: Store, d: PassData, now: Time, failAt: Option<nat>)
    requires Create(sx, s, d, now, failAt).Saved?
    ensures var r := Create(sx, s, d, now, failAt);
      r.pass in r.store.passes && UsersWithEmail(r.store, d.user.email) == [r.store.passes[r.pass].user]
  {
    CreateEffect(sx, s, d, now, failAt);
    var r := Create(sx, s, d, now, failAt);
    EffectSoleUser(s, d, now, r.store, r.pass);
    SortedSingleton(UsersWithEmail(r.store, d.user.email), r.store.passes[r.pass].user);
  }

  /** After the table-by-table effect of a save, the submitter of the new pass is the only one with the email. */
  lemma EffectSoleUser(s: Store, d: PassData, now: Time, s': Store, pass: nat)
    requires SubmitEffect(s, d, now, s', pass)
    ensures pass in s'.passes
    ensures forall id :: id in s'.users && s'.users[id].email == d.user.email <==> id == s'.passes[pass].user
  {
    var found := UsersWithEmail(s, d.user.email);
    var u := s'.passes[pass].user;
    if |found| == 1 {
      assert PassSaved(s, d, now, found[0], s', pass);
      assert forall id :: id in found <==> id == u;
    } else {
      assert PassSaved(InsertUser(s, NewUser(d.user)), d, now, s.nextUser, s', pass);
      assert forall id :: id in s.users ==> s.users[id].email != d.user.email;
    }
  }

  /**
   * Two saves with the same email share one submitter: the second reuses the
   * row the first created or found, and its own name fields are ignored.
   */
  lemma FirstWriteWins(
    sx: Syntax, s: Store, d1: PassData, d2: PassData, now1: Time, now2: Time, f1: Option<nat>, f2: Option<nat>,
    r1: Outcome, r2: Outcome)
    requires d1.user.email == d2.user.email
    requires r1 == Create(sx, s, d1, now1, f1) && r1.Saved?
    requires r2 == Create(sx, r1.store, d2, now2, f2) && r2.Saved?
    ensures r1.pass in r1.store.passes && r2.pass in r2.store.passes
    ensures r2.store.passes[r2.pass].user == r1.store.passes[r1.pass].user
    ensures r2.store.users == r1.store.users
  {
    SavedUserIsOnly(sx, s, d1, now1, f1);
    ReuseSoleUser(sx, r1.store, d2, now2, f2, r1.store.passes[r1.pass].user);
  }

  /** When the email names exactly one submitter, a successful save links the pass to it and leaves the submitters alone. */
  lemma ReuseSoleUser(sx: Syntax, s: Store, d: PassData, now: Time, failAt: Option<nat>, u: nat)
    requires UsersWithEmail(s, d.user.email) == [u]
    requires Create(sx, s, d, now, failAt).Saved?
    ensures var r := Create(sx, s, d, now, failAt);
      r.pass in r.store.passes && r.store.passes[r.pass].user == u && r.store.users == s.users
  {
    CreateSpec(sx, s, d, now, failAt);
  }

  /**
   * Nothing makes `save()` atomic: when the first photo insert raises, the
   * coordinates and the pass (status `new`) stay stored, with no photo.
   */
  lemma PhotoFailureKeepsPass(sx: Syntax, s: Store, d: PassData, now: Time)
    requires UserErrors(sx, UserInputOf(d.user)) == {}
    requires |UsersWithEmail(s, d.user.email)| <= 1
    requires |d.images| > 0
    ensures var k := WritesNeeded(s, d) - |d.images|;
      var r := Create(sx, s, d, now, Some(k));
      && r.Raised? && r.error == WriteFailed(k)
      && s.nextPass in r.store.passes && r.store.passes[s.nextPass].status == New
      && s.nextCoords in r.store.coords
      && r.store.images == s.images
  {
    var k := WritesNeeded(s, d) - |d.images|;
    CreateAfterUser(sx, s, d, now, Some(k));
    var g := GetOrCreateUser(s, d.user, Some(k));
    assert g.Done? && g.writes + 2 == k;
    FirstPhotoRaises(g.store, g.writes, g.value, d, now);
  }

  /** When the first photo insert raises, the coordinates and the pass stay stored with no photo. */
  lemma FirstPhotoRaises(s: Store, w: nat, user: nat, d: PassData, now: Time)
    requires |d.images| > 0
    ensures var r := SavePass(s, w, user, d, now, Some(w + 2));
      && r.Raised? && r.error == WriteFailed(w + 2)
      && s.nextPass in r.store.passes && r.store.passes[s.nextPass].status == New
      && s.nextCoords in r.store.coords
      && r.store.images == s.images
  {
    var s2 := InsertCoords(s, d.coords);
    var s3 := InsertPass(s2, NewPass(d, now, user, s.nextCoords));
    var rows := AttachAll(s2.nextPass, d.images);
    CreateImagesRaise(s3, rows, w + 2, Some(w + 2));
    assert rows[..0] == [];
    assert AppendImages(s3, []).images == s3.images;
  }
}
