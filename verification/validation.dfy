/**
 * Input validation of the two pass serializers: the request body as
 * received, the per-field rules derived from the model's columns, the
 * aggregated field errors, and the validated data handed to `create` and
 * `update`.
 */
module Validation {
  import opened Wrappers
  import opened Records

  /**
   * The framework's syntax checks and coercions, whose definitions are not
   * part of this model: email and URL syntax, float, integer and timestamp
   * parsing of a value as received.
   */
  datatype Syntax = Syntax(
    isEmail: string -> bool,
    isUrl: string -> bool,
    toFloat: string -> Option<real>,
    toInt: string -> Option<int>,
    toTime: string -> Option<Time>)

  datatype UserInput = UserInput(
    email: Option<string>, fam: Option<string>, name: Option<string>,
    otc: Option<string>, phone: Option<string>)

  datatype CoordsInput = CoordsInput(
    latitude: Option<string>, longitude: Option<string>, height: Option<string>)

  datatype ImageInput = ImageInput(title: Option<string>, imageUrl: Option<string>)

  /** The `level` object some clients send; neither serializer declares it. */
  datatype LevelInput = LevelInput(
    winter: Option<string>, summer: Option<string>, autumn: Option<string>, spring: Option<string>)

  /**
   * A request body: every key may be absent. `status` and `level` are keys a
   * client may send that no serializer reads.
   */
  datatype Payload = Payload(
    beautyTitle: Option<string>,
    title: Option<string>,
    otherTitles: Option<string>,
    connect: Option<string>,
    addTime: Option<string>,
    levelWinter: Option<string>,
    levelSummer: Option<string>,
    levelAutumn: Option<string>,
    levelSpring: Option<string>,
    status: Option<string>,
    level: Option<LevelInput>,
    user: Option<UserInput>,
    coords: Option<CoordsInput>,
    images: Option<seq<ImageInput>>)
  {
    function Text(f: TextField): Option<string> {
      match f
      case BeautyTitle => beautyTitle
      case Title => title
      case OtherTitles => otherTitles
      case Connect => connect
      case Level(Winter) => levelWinter
      case Level(Summer) => levelSummer
      case Level(Autumn) => levelAutumn
      case Level(Spring) => levelSpring
    }
  }

  /** Which serializer validates: the create one, or the update one (partial or not). */
  datatype Form = SubmitForm | UpdateForm(partial: bool)

  /** Whether fields without a default must be present. */
  predicate Required(form: Form) {
    form.SubmitForm? || !form.partial
  }

  /** A path to one input field, as an error report names it. */
  datatype Field =
    | PassText(text: TextField)
    | AddTime
    | UserObject | UserEmail | UserFam | UserName | UserOtc | UserPhone
    | CoordsObject | Latitude | Longitude | Height
    | ImagesList | ImageTitle(index: nat) | ImageUrl(index: nat)

  /** A character field: present unless optional, non-blank unless blank is allowed, within its cap. */
  predicate TextOk(v: Option<string>, required: bool, blankOk: bool, cap: Option<nat>) {
    match v
    case None => !required
    case Some(x) => (blankOk || x != "") && FitsCap(x, cap)
  }

  predicate TextFieldOk(form: Form, raw: Payload, f: TextField) {
    TextOk(raw.Text(f), Required(form) && !Blankable(f), Blankable(f), MaxLength(f))
  }

  predicate TimeOk(sx: Syntax, v: Option<string>) {
    v.None? || sx.toTime(v.value).Some?
  }

  predicate EmailOk(sx: Syntax, v: Option<string>) {
    TextOk(v, true, false, Some(EMAIL_MAX_LENGTH)) && sx.isEmail(v.value)
  }

  predicate NumberOk(sx: Syntax, v: Option<string>, required: bool) {
    match v
    case None => !required
    case Some(x) => sx.toFloat(x).Some?
  }

  predicate HeightOk(sx: Syntax, v: Option<string>, required: bool) {
    match v
    case None => !required
    case Some(x) => sx.toInt(x).Some? && INT_MIN <= sx.toInt(x).value <= INT_MAX
  }

  predicate ImageTitleOk(v: Option<string>, required: bool) {
    TextOk(v, required, false, Some(IMAGE_TITLE_MAX_LENGTH))
  }

  predicate UrlOk(sx: Syntax, v: Option<string>, required: bool) {
    TextOk(v, required, false, Some(URL_MAX_LENGTH)) && (v.Some? ==> sx.isUrl(v.value))
  }

  /** Field-by-field statement of when a field of `raw` is rejected by the serializer of `form`. */
  predicate Fails(sx: Syntax, form: Form, raw: Payload, f: Field) {
    match f
    case PassText(t) => !TextFieldOk(form, raw, t)
    case AddTime => form.SubmitForm? && !TimeOk(sx, raw.addTime)
    case UserObject => form.SubmitForm? && raw.user.None?
    case UserEmail => form.SubmitForm? && raw.user.Some? && !EmailOk(sx, raw.user.value.email)
    case UserFam => form.SubmitForm? && raw.user.Some? && !TextOk(raw.user.value.fam, true, false, Some(NAME_MAX_LENGTH))
    case UserName => form.SubmitForm? && raw.user.Some? && !TextOk(raw.user.value.name, true, false, Some(NAME_MAX_LENGTH))
    case UserOtc => form.SubmitForm? && raw.user.Some? && !TextOk(raw.user.value.otc, false, true, Some(NAME_MAX_LENGTH))
    case UserPhone => form.SubmitForm? && raw.user.Some? && !TextOk(raw.user.value.phone, false, true, Some(PHONE_MAX_LENGTH))
    case CoordsObject => form.SubmitForm? && raw.coords.None?
    case Latitude => raw.coords.Some? && !NumberOk(sx, raw.coords.value.latitude, Required(form))
    case Longitude => raw.coords.Some? && !NumberOk(sx, raw.coords.value.longitude, Required(form))
    case Height => raw.coords.Some? && !HeightOk(sx, raw.coords.value.height, Required(form))
    case ImagesList => form.SubmitForm? && raw.images.None?
    case ImageTitle(i) =>
      raw.images.Some? && i < |raw.images.value| && !ImageTitleOk(raw.images.value[i].title, Required(form))
    case ImageUrl(i) =>
      raw.images.Some? && i < |raw.images.value| && !UrlOk(sx, raw.images.value[i].imageUrl, Required(form))
  }

  function Flag(f: Field, ok: bool): set<Field> {
    if ok then {} else {f}
  }

  function TextErrors(form: Form, raw: Payload): (r: set<Field>)
    ensures forall f :: f in r <==> f.PassText? && !TextFieldOk(form, raw, f.text)
  {
    AllTextFields();
    set t | t in TEXT_FIELDS && !TextFieldOk(form, raw, t) :: PassText(t)
  }

  /** Errors of the nested submitter object: email, fam and name required; otc and phone may be blank. */
  function UserErrors(sx: Syntax, u: UserInput): set<Field> {
    Flag(UserEmail, EmailOk(sx, u.email))
    + Flag(UserFam, TextOk(u.fam, true, false, Some(NAME_MAX_LENGTH)))
    + Flag(UserName, TextOk(u.name, true, false, Some(NAME_MAX_LENGTH)))
    + Flag(UserOtc, TextOk(u.otc, false, true, Some(NAME_MAX_LENGTH)))
    + Flag(UserPhone, TextOk(u.phone, false, true, Some(PHONE_MAX_LENGTH)))
  }

  /** Whether `f` names a field only the create serializer reads. */
  predicate SubmitOnly(f: Field) {
    f.AddTime? || f.UserObject? || f.UserEmail? || f.UserFam? || f.UserName? || f.UserOtc? || f.UserPhone?
    || f.CoordsObject? || f.ImagesList?
  }

  /** Errors of the keys only the create serializer reads: `add_time`, the submitter, and the presence of `coords` and `images`. */
  function SubmitOnlyErrors(sx: Syntax, raw: Payload): (r: set<Field>)
    ensures forall f :: f in r <==> SubmitOnly(f) && Fails(sx, SubmitForm, raw, f)
  {
    Flag(AddTime, TimeOk(sx, raw.addTime))
    + UserObjectErrors(sx, raw)
    + Flag(CoordsObject, raw.coords.Some?)
    + Flag(ImagesList, raw.images.Some?)
  }

  /** Errors of the submitter object: its absence, or the fields its serializer rejects. */
  function UserObjectErrors(sx: Syntax, raw: Payload): (r: set<Field>)
    ensures forall f :: f in r <==>
      (f.UserObject? || f.UserEmail? || f.UserFam? || f.UserName? || f.UserOtc? || f.UserPhone?)
      && Fails(sx, SubmitForm, raw, f)
  {
    match raw.user
    case None => {UserObject}
    case Some(u) => UserErrors(sx, u)
  }

  function CoordsErrors(sx: Syntax, form: Form, raw: Payload): (r: set<Field>)
    ensures forall f :: f in r <==> (f.Latitude? || f.Longitude? || f.Height?) && Fails(sx, form, raw, f)
  {
    match raw.coords
    case None => {}
    case Some(c) =>
      Flag(Latitude, NumberOk(sx, c.latitude, Required(form)))
      + Flag(Longitude, NumberOk(sx, c.longitude, Required(form)))
      + Flag(Height, HeightOk(sx, c.height, Required(form)))
  }

  /** Errors of the photo objects from position `i` on; every element is checked. */
  function ImageErrors(sx: Syntax, required: bool, imgs: seq<ImageInput>, i: nat): (r: set<Field>)
    requires i <= |imgs|
    ensures forall f :: f in r <==>
      || (f.ImageTitle? && i <= f.index < |imgs| && !ImageTitleOk(imgs[f.index].title, required))
      || (f.ImageUrl? && i <= f.index < |imgs| && !UrlOk(sx, imgs[f.index].imageUrl, required))
    decreases |imgs| - i
  {
    if i == |imgs| then {}
    else
      Flag(ImageTitle(i), ImageTitleOk(imgs[i].title, required))
      + Flag(ImageUrl(i), UrlOk(sx, imgs[i].imageUrl, required))
      + ImageErrors(sx, required, imgs, i + 1)
  }

  function ImagesErrors(sx: Syntax, form: Form, raw: Payload): (r: set<Field>)
    ensures forall f :: f in r <==> (f.ImageTitle? || f.ImageUrl?) && Fails(sx, form, raw, f)
  {
    match raw.images
    case None => {}
    case Some(imgs) => ImageErrors(sx, Required(form), imgs, 0)
  }

  /** All errors of `raw`, aggregated rather than stopping at the first. */
  function Errors(sx: Syntax, form: Form, raw: Payload): set<Field> {
    TextErrors(form, raw)
    + (if form.SubmitForm? then SubmitOnlyErrors(sx, raw) else {})
    + CoordsErrors(sx, form, raw)
    + ImagesErrors(sx, form, raw)
  }

  /** The aggregated errors name exactly the fields that fail. */
  lemma ErrorsExact(sx: Syntax, form: Form, raw: Payload)
    ensures forall f :: f in Errors(sx, form, raw) <==> Fails(sx, form, raw, f)
  {
    forall f
      ensures f in Errors(sx, form, raw) <==> Fails(sx, form, raw, f)
    {
      if !form.SubmitForm? && SubmitOnly(f) {
        assert !Fails(sx, form, raw, f);
      }
    }
  }

  /** A non-empty error set names a failing field. */
  lemma SomeError(sx: Syntax, form: Form, raw: Payload)
    requires Errors(sx, form, raw) != {}
    ensures exists f :: Fails(sx, form, raw, f)
  {
    ErrorsExact(sx, form, raw);
    var f :| f in Errors(sx, form, raw);
    assert Fails(sx, form, raw, f);
  }

  /** Validated submitter data; `otc` and `phone` stay absent when not sent. */
  datatype UserData = UserData(email: string, fam: string, name: string, otc: Option<string>, phone: Option<string>)

  /** A photo as the photo serializer reads and writes it. */
  datatype ImageData = ImageData(title: string, imageUrl: string) {

    /** The row `PerevalImage.objects.create(pereval=pass, **img)` stores. */
    function Attach(pass: nat): Image {
      Image(pass, title, imageUrl)
    }
  }

  /** Photo rows for a pass, in payload order. */
  function AttachAll(pass: nat, imgs: seq<ImageData>): (rows: seq<Image>)
    ensures |rows| == |imgs|
    ensures forall i :: 0 <= i < |imgs| ==> rows[i] == imgs[i].Attach(pass)
  {
    if imgs == [] then [] else [imgs[0].Attach(pass)] + AttachAll(pass, imgs[1..])
  }

  /** Validated data of the create serializer; optional fields stay absent when not sent. */
  datatype PassData = PassData(
    beautyTitle: string,
    title: string,
    otherTitles: Option<string>,
    connect: Option<string>,
    addTime: Option<Time>,
    levelWinter: Option<string>,
    levelSummer: Option<string>,
    levelAutumn: Option<string>,
    levelSpring: Option<string>,
    user: UserData,
    coords: Coords,
    images: seq<ImageData>)
  {
    function Text(f: TextField): Option<string> {
      match f
      case BeautyTitle => Some(beautyTitle)
      case Title => Some(title)
      case OtherTitles => otherTitles
      case Connect => connect
      case Level(Winter) => levelWinter
      case Level(Summer) => levelSummer
      case Level(Autumn) => levelAutumn
      case Level(Spring) => levelSpring
    }
  }

  /** The submitter object as the nested serializer hands it on. */
  function UserInputOf(d: UserData): UserInput {
    UserInput(Some(d.email), Some(d.fam), Some(d.name), d.otc, d.phone)
  }

  function ImageInputOf(d: ImageData): ImageInput {
    ImageInput(Some(d.title), Some(d.imageUrl))
  }

  /** Validation of the submitter object on its own, as the nested serializer does it. */
  function ValidateUser(sx: Syntax, u: UserInput): (r: Result<UserData, set<Field>>)
    ensures r.Success? <==> UserErrors(sx, u) == {}
    ensures r.Failure? ==> r.error == UserErrors(sx, u)
    ensures r.Success? ==> UserInputOf(r.value) == u
  {
    var errs := UserErrors(sx, u);
    if errs != {} then Failure(errs)
    else
      assert UserEmail !in errs && UserFam !in errs && UserName !in errs;
      Success(UserData(u.email.value, u.fam.value, u.name.value, u.otc, u.phone))
  }

  /** Data the submitter serializer produced validates again to itself. */
  lemma RevalidateUser(sx: Syntax, d: UserData)
    requires UserErrors(sx, UserInputOf(d)) == {}
    ensures ValidateUser(sx, UserInputOf(d)) == Success(d)
  {
  }

  function ToCoords(sx: Syntax, c: CoordsInput): Coords
    requires NumberOk(sx, c.latitude, true) && NumberOk(sx, c.longitude, true) && HeightOk(sx, c.height, true)
  {
    Coords(sx.toFloat(c.latitude.value).value, sx.toFloat(c.longitude.value).value, sx.toInt(c.height.value).value)
  }

  /** An accepted photo object; a field a partial update left out takes its column default `""`. */
  function ToImageData(img: ImageInput): ImageData {
    ImageData(img.title.GetOr(""), img.imageUrl.GetOr(""))
  }

  function ToImages(imgs: seq<ImageInput>): (r: seq<ImageData>)
    ensures |r| == |imgs|
    ensures forall i :: 0 <= i < |imgs| ==> r[i] == ToImageData(imgs[i])
  {
    if imgs == [] then [] else [ToImageData(imgs[0])] + ToImages(imgs[1..])
  }

  /** How validated create data relates to the body it came from. */
  ghost predicate Parsed(sx: Syntax, raw: Payload, d: PassData) {
    && (forall t :: d.Text(t) == raw.Text(t))
    && (raw.addTime.Some? <==> d.addTime.Some?)
    && (raw.addTime.Some? ==> d.addTime == sx.toTime(raw.addTime.value))
    && raw.user == Some(UserInputOf(d.user))
    && raw.coords.Some?
    && sx.toFloat(raw.coords.value.latitude.GetOr("")) == Some(d.coords.latitude)
    && sx.toFloat(raw.coords.value.longitude.GetOr("")) == Some(d.coords.longitude)
    && sx.toInt(raw.coords.value.height.GetOr("")) == Some(d.coords.height)
    && raw.images.Some?
    && |d.images| == |raw.images.value|
    && (forall i :: 0 <= i < |d.images| ==> ImageInputOf(d.images[i]) == raw.images.value[i])
  }

  /** The facts about `raw` that the create serializer's acceptance gives. */
  lemma AcceptedSubmit(sx: Syntax, raw: Payload)
    requires forall f :: !Fails(sx, SubmitForm, raw, f)
    ensures raw.beautyTitle.Some? && raw.title.Some? && TimeOk(sx, raw.addTime)
    ensures raw.user.Some? && UserErrors(sx, raw.user.value) == {}
    ensures raw.coords.Some?
    ensures NumberOk(sx, raw.coords.value.latitude, true) && NumberOk(sx, raw.coords.value.longitude, true)
    ensures HeightOk(sx, raw.coords.value.height, true)
    ensures raw.images.Some?
    ensures forall i :: 0 <= i < |raw.images.value| ==>
      raw.images.value[i].title.Some? && raw.images.value[i].imageUrl.Some?
  {
    assert !Fails(sx, SubmitForm, raw, PassText(BeautyTitle)) && !Fails(sx, SubmitForm, raw, PassText(Title));
    assert !Fails(sx, SubmitForm, raw, UserObject) && !Fails(sx, SubmitForm, raw, AddTime);
    assert !Fails(sx, SubmitForm, raw, CoordsObject) && !Fails(sx, SubmitForm, raw, ImagesList);
    assert !Fails(sx, SubmitForm, raw, Latitude) && !Fails(sx, SubmitForm, raw, Longitude);
    assert !Fails(sx, SubmitForm, raw, Height);
    AcceptedUser(sx, raw);
    AcceptedImages(sx, raw);
  }

  /** An accepted body carries a submitter object its own serializer accepts. */
  lemma AcceptedUser(sx: Syntax, raw: Payload)
    requires forall f :: !Fails(sx, SubmitForm, raw, f)
    ensures raw.user.Some? && UserErrors(sx, raw.user.value) == {}
  {
    assert !Fails(sx, SubmitForm, raw, UserObject);
    assert !Fails(sx, SubmitForm, raw, UserEmail) && !Fails(sx, SubmitForm, raw, UserFam);
    assert !Fails(sx, SubmitForm, raw, UserName) && !Fails(sx, SubmitForm, raw, UserOtc);
    assert !Fails(sx, SubmitForm, raw, UserPhone);
  }

  /** An accepted body carries a photo list whose every object has a title and a URL. */
  lemma AcceptedImages(sx: Syntax, raw: Payload)
    requires forall f :: !Fails(sx, SubmitForm, raw, f)
    ensures raw.images.Some?
    ensures forall i :: 0 <= i < |raw.images.value| ==>
      raw.images.value[i].title.Some? && raw.images.value[i].imageUrl.Some?
  {
    assert !Fails(sx, SubmitForm, raw, ImagesList);
    var imgs := raw.images.value;
    forall i | 0 <= i < |imgs|
      ensures imgs[i].title.Some? && imgs[i].imageUrl.Some?
    {
      assert !Fails(sx, SubmitForm, raw, ImageTitle(i)) && !Fails(sx, SubmitForm, raw, ImageUrl(i));
    }
  }

  function ToPassData(sx: Syntax, raw: Payload): PassData
    requires forall f :: !Fails(sx, SubmitForm, raw, f)
  {
    AcceptedSubmit(sx, raw);
    var at := if raw.addTime.Some? then Some(sx.toTime(raw.addTime.value).value) else None;
    PassData(
      raw.beautyTitle.value, raw.title.value, raw.otherTitles, raw.connect, at,
      raw.levelWinter, raw.levelSummer, raw.levelAutumn, raw.levelSpring,
      ValidateUser(sx, raw.user.value).value,
      ToCoords(sx, raw.coords.value),
      ToImages(raw.images.value))
  }

  lemma ToPassDataParsed(sx: Syntax, raw: Payload)
    requires forall f :: !Fails(sx, SubmitForm, raw, f)
    ensures Parsed(sx, raw, ToPassData(sx, raw))
  {
    AcceptedSubmit(sx, raw);
    var d := ToPassData(sx, raw);
    forall t: TextField
      ensures d.Text(t) == raw.Text(t)
    {
      TextFieldCases(t);
    }
    var imgs := raw.images.value;
    forall i | 0 <= i < |d.images|
      ensures ImageInputOf(d.images[i]) == imgs[i]
    {
      assert d.images[i] == ToImageData(imgs[i]);
    }
  }

  /** `is_valid()` of the create serializer: the validated data, or every failing field. */
  function ValidateSubmit(sx: Syntax, raw: Payload): (r: Result<PassData, set<Field>>)
    ensures r.Success? <==> forall f :: !Fails(sx, SubmitForm, raw, f)
    ensures r.Failure? ==> r.error != {} && forall f :: f in r.error <==> Fails(sx, SubmitForm, raw, f)
    ensures r.Success? ==> Parsed(sx, raw, r.value)
  {
    ErrorsExact(sx, SubmitForm, raw);
    var errs := Errors(sx, SubmitForm, raw);
    if errs != {} then
      SomeError(sx, SubmitForm, raw);
      Failure(errs)
    else
      ToPassDataParsed(sx, raw);
      Success(ToPassData(sx, raw))
  }

  /** Keys the create serializer does not declare (`status`, `level`) have no influence on its validation. */
  lemma SubmitIgnoresUndeclared(sx: Syntax, raw: Payload, status: Option<string>, level: Option<LevelInput>)
    ensures ValidateSubmit(sx, raw.(status := status, level := level)) == ValidateSubmit(sx, raw)
  {
    var raw' := raw.(status := status, level := level);
    assert forall t :: raw'.Text(t) == raw.Text(t);
    assert TextErrors(SubmitForm, raw') == TextErrors(SubmitForm, raw);
    assert SubmitOnlyErrors(sx, raw') == SubmitOnlyErrors(sx, raw);
    assert CoordsErrors(sx, SubmitForm, raw') == CoordsErrors(sx, SubmitForm, raw);
    assert ImagesErrors(sx, SubmitForm, raw') == ImagesErrors(sx, SubmitForm, raw);
    assert Errors(sx, SubmitForm, raw') == Errors(sx, SubmitForm, raw);
    if Errors(sx, SubmitForm, raw) == {} {
      ErrorsExact(sx, SubmitForm, raw);
      ErrorsExact(sx, SubmitForm, raw');
      assert ToPassData(sx, raw') == ToPassData(sx, raw);
    }
  }

  /** Every value of validated create data fits the column it is stored in. */
  ghost predicate DataFits(d: PassData) {
    && |d.user.email| <= EMAIL_MAX_LENGTH
    && |d.user.fam| <= NAME_MAX_LENGTH && |d.user.name| <= NAME_MAX_LENGTH
    && |d.user.otc.GetOr("")| <= NAME_MAX_LENGTH && |d.user.phone.GetOr("")| <= PHONE_MAX_LENGTH
    && CoordsFits(d.coords)
    && (forall t :: FitsCap(d.Text(t).GetOr(""), MaxLength(t)))
    && (forall i :: 0 <= i < |d.images| ==>
          |d.images[i].title| <= IMAGE_TITLE_MAX_LENGTH && |d.images[i].imageUrl| <= URL_MAX_LENGTH)
  }

  /** The length checks of the create serializer are the column widths, so accepted data fits the tables. */
  lemma ValidatedDataFits(sx: Syntax, raw: Payload)
    requires ValidateSubmit(sx, raw).Success?
    ensures DataFits(ValidateSubmit(sx, raw).value)
  {
    var d := ValidateSubmit(sx, raw).value;
    ParsedUserFits(sx, raw, d);
    ParsedHeightFits(sx, raw, d);
    ParsedTextsFit(sx, raw, d);
    ParsedImagesFit(sx, raw, d);
  }

  lemma ParsedUserFits(sx: Syntax, raw: Payload, d: PassData)
    requires forall f :: !Fails(sx, SubmitForm, raw, f)
    requires raw.user == Some(UserInputOf(d.user))
    ensures |d.user.email| <= EMAIL_MAX_LENGTH
    ensures |d.user.fam| <= NAME_MAX_LENGTH && |d.user.name| <= NAME_MAX_LENGTH
    ensures |d.user.otc.GetOr("")| <= NAME_MAX_LENGTH && |d.user.phone.GetOr("")| <= PHONE_MAX_LENGTH
  {
    assert !Fails(sx, SubmitForm, raw, UserEmail) && !Fails(sx, SubmitForm, raw, UserFam);
    assert !Fails(sx, SubmitForm, raw, UserName) && !Fails(sx, SubmitForm, raw, UserOtc);
    assert !Fails(sx, SubmitForm, raw, UserPhone);
  }

  /** The accepted height parses to a value in the `integer` range, and that value is stored. */
  lemma ParsedHeightFits(sx: Syntax, raw: Payload, d: PassData)
    requires forall f :: !Fails(sx, SubmitForm, raw, f)
    requires raw.coords.Some? && sx.toInt(raw.coords.value.height.GetOr("")) == Some(d.coords.height)
    ensures CoordsFits(d.coords)
  {
    assert !Fails(sx, SubmitForm, raw, Height);
  }

  lemma ParsedTextsFit(sx: Syntax, raw: Payload, d: PassData)
    requires forall f :: !Fails(sx, SubmitForm, raw, f)
    requires forall t :: d.Text(t) == raw.Text(t)
    ensures forall t :: FitsCap(d.Text(t).GetOr(""), MaxLength(t))
  {
    forall t: TextField
      ensures FitsCap(d.Text(t).GetOr(""), MaxLength(t))
    {
      assert !Fails(sx, SubmitForm, raw, PassText(t));
    }
  }

  lemma ParsedImagesFit(sx: Syntax, raw: Payload, d: PassData)
    requires forall f :: !Fails(sx, SubmitForm, raw, f)
    requires raw.images.Some? && |d.images| == |raw.images.value|
    requires forall i :: 0 <= i < |d.images| ==> ImageInputOf(d.images[i]) == raw.images.value[i]
    ensures forall i :: 0 <= i < |d.images| ==>
      |d.images[i].title| <= IMAGE_TITLE_MAX_LENGTH && |d.images[i].imageUrl| <= URL_MAX_LENGTH
  {
    forall i | 0 <= i < |d.images|
      ensures |d.images[i].title| <= IMAGE_TITLE_MAX_LENGTH && |d.images[i].imageUrl| <= URL_MAX_LENGTH
    {
      assert !Fails(sx, SubmitForm, raw, ImageTitle(i)) && !Fails(sx, SubmitForm, raw, ImageUrl(i));
      assert ImageInputOf(d.images[i]) == raw.images.value[i];
    }
  }

  /** A coordinates object of an update: each coordinate may be absent. */
  datatype CoordsPatch = CoordsPatch(latitude: Option<real>, longitude: Option<real>, height: Option<int>) {

    /** An object without keys, which Python treats as false. */
    predicate IsEmpty() {
      latitude.None? && longitude.None? && height.None?
    }
  }

  /** Validated data of the update serializer: only the declared fields, each possibly absent. */
  datatype UpdateData = UpdateData(
    beautyTitle: Option<string>,
    title: Option<string>,
    otherTitles: Option<string>,
    connect: Option<string>,
    levelWinter: Option<string>,
    levelSummer: Option<string>,
    levelAutumn: Option<string>,
    levelSpring: Option<string>,
    coords: Option<CoordsPatch>,
    images: Option<seq<ImageData>>)
  {
    function Text(f: TextField): Option<string> {
      match f
      case BeautyTitle => beautyTitle
      case Title => title
      case OtherTitles => otherTitles
      case Connect => connect
      case Level(Winter) => levelWinter
      case Level(Summer) => levelSummer
      case Level(Autumn) => levelAutumn
      case Level(Spring) => levelSpring
    }
  }

  function ToPatch(sx: Syntax, c: CoordsInput): CoordsPatch {
    CoordsPatch(
      match c.latitude case None => None case Some(x) => sx.toFloat(x),
      match c.longitude case None => None case Some(x) => sx.toFloat(x),
      match c.height case None => None case Some(x) => sx.toInt(x))
  }

  /** How validated update data relates to the body it came from. */
  ghost predicate UpdateParsed(sx: Syntax, raw: Payload, d: UpdateData) {
    && (forall t :: d.Text(t) == raw.Text(t))
    && (d.coords.Some? <==> raw.coords.Some?)
    && (raw.coords.Some? ==>
          && (d.coords.value.latitude.Some? <==> raw.coords.value.latitude.Some?)
          && (d.coords.value.longitude.Some? <==> raw.coords.value.longitude.Some?)
          && (d.coords.value.height.Some? <==> raw.coords.value.height.Some?)
          && (raw.coords.value.latitude.Some? ==>
                Some(d.coords.value.latitude.value) == sx.toFloat(raw.coords.value.latitude.value))
          && (raw.coords.value.longitude.Some? ==>
                Some(d.coords.value.longitude.value) == sx.toFloat(raw.coords.value.longitude.value))
          && (raw.coords.value.height.Some? ==>
                Some(d.coords.value.height.value) == sx.toInt(raw.coords.value.height.value)))
    && (d.images.Some? <==> raw.images.Some?)
    && (raw.images.Some? ==>
          && |d.images.value| == |raw.images.value|
          && forall i :: 0 <= i < |raw.images.value| ==> d.images.value[i] == ToImageData(raw.images.value[i]))
  }

  /**
   * `is_valid()` of the update serializer. With `partial` every field is
   * optional; otherwise `beauty_title` and `title` are required. Keys outside
   * its field list (`user`, `status`, `add_time`, `level`) are never read.
   */
  function ValidateUpdate(sx: Syntax, raw: Payload, partial: bool): (r: Result<UpdateData, set<Field>>)
    ensures r.Success? <==> forall f :: !Fails(sx, UpdateForm(partial), raw, f)
    ensures r.Failure? ==> r.error != {} && forall f :: f in r.error <==> Fails(sx, UpdateForm(partial), raw, f)
    ensures r.Success? ==> UpdateParsed(sx, raw, r.value)
  {
    var form := UpdateForm(partial);
    ErrorsExact(sx, form, raw);
    var errs := Errors(sx, form, raw);
    if errs != {} then
      SomeError(sx, form, raw);
      Failure(errs)
    else
      var d := UpdateData(
        raw.beautyTitle, raw.title, raw.otherTitles, raw.connect,
        raw.levelWinter, raw.levelSummer, raw.levelAutumn, raw.levelSpring,
        match raw.coords case None => None case Some(c) => Some(ToPatch(sx, c)),
        match raw.images case None => None case Some(imgs) => Some(ToImages(imgs)));
      UpdateDataParsed(sx, raw, partial, d);
      Success(d)
  }

  lemma UpdateDataParsed(sx: Syntax, raw: Payload, partial: bool, d: UpdateData)
    requires forall f :: !Fails(sx, UpdateForm(partial), raw, f)
    requires d == UpdateData(
        raw.beautyTitle, raw.title, raw.otherTitles, raw.connect,
        raw.levelWinter, raw.levelSummer, raw.levelAutumn, raw.levelSpring,
        match raw.coords case None => None case Some(c) => Some(ToPatch(sx, c)),
        match raw.images case None => None case Some(imgs) => Some(ToImages(imgs)))
    ensures UpdateParsed(sx, raw, d)
  {
    var form := UpdateForm(partial);
    assert !Fails(sx, form, raw, Latitude) && !Fails(sx, form, raw, Longitude) && !Fails(sx, form, raw, Height);
    forall t: TextField
      ensures d.Text(t) == raw.Text(t)
    {
      TextFieldCases(t);
    }
  }

  /** Keys outside the update serializer's field list have no influence on its validation. */
  lemma UpdateIgnoresUndeclared(
    sx: Syntax, raw: Payload, partial: bool,
    user: Option<UserInput>, status: Option<string>, addTime: Option<string>, level: Option<LevelInput>)
    ensures ValidateUpdate(sx, raw.(user := user, status := status, addTime := addTime, level := level), partial)
         == ValidateUpdate(sx, raw, partial)
  {
    var raw' := raw.(user := user, status := status, addTime := addTime, level := level);
    var form := UpdateForm(partial);
    assert forall t :: raw'.Text(t) == raw.Text(t);
    assert TextErrors(form, raw') == TextErrors(form, raw);
    assert CoordsErrors(sx, form, raw') == CoordsErrors(sx, form, raw);
    assert ImagesErrors(sx, form, raw') == ImagesErrors(sx, form, raw);
    assert Errors(sx, form, raw') == Errors(sx, form, raw);
  }

  /** Every text, height and photo an update supplies fits the column it is stored in. */
  ghost predicate UpdateFits(d: UpdateData) {
    && (forall t :: d.Text(t).Some? ==> FitsCap(d.Text(t).value, MaxLength(t)))
    && (d.coords.Some? && d.coords.value.height.Some? ==> INT_MIN <= d.coords.value.height.value <= INT_MAX)
    && (d.images.Some? ==> forall i :: 0 <= i < |d.images.value| ==>
          |d.images.value[i].title| <= IMAGE_TITLE_MAX_LENGTH && |d.images.value[i].imageUrl| <= URL_MAX_LENGTH)
  }

  /** The length checks of the update serializer are the column widths, so accepted data fits the tables. */
  lemma ValidatedUpdateFits(sx: Syntax, raw: Payload, partial: bool)
    requires ValidateUpdate(sx, raw, partial).Success?
    ensures UpdateFits(ValidateUpdate(sx, raw, partial).value)
  {
    var d := ValidateUpdate(sx, raw, partial).value;
    UpdateTextsFit(sx, raw, partial, d);
    if d.coords.Some? && d.coords.value.height.Some? {
      assert !Fails(sx, UpdateForm(partial), raw, Height);
    }
    if raw.images.Some? {
      UpdateImagesFit(sx, raw, partial, d);
    }
  }

  lemma UpdateTextsFit(sx: Syntax, raw: Payload, partial: bool, d: UpdateData)
    requires forall f :: !Fails(sx, UpdateForm(partial), raw, f)
    requires forall t :: d.Text(t) == raw.Text(t)
    ensures forall t :: d.Text(t).Some? ==> FitsCap(d.Text(t).value, MaxLength(t))
  {
    forall t: TextField | d.Text(t).Some?
      ensures FitsCap(d.Text(t).value, MaxLength(t))
    {
      assert !Fails(sx, UpdateForm(partial), raw, PassText(t));
    }
  }

  lemma UpdateImagesFit(sx: Syntax, raw: Payload, partial: bool, d: UpdateData)
    requires forall f :: !Fails(sx, UpdateForm(partial), raw, f)
    requires raw.images.Some? && d.images.Some? && |d.images.value| == |raw.images.value|
    requires forall i :: 0 <= i < |raw.images.value| ==> d.images.value[i] == ToImageData(raw.images.value[i])
    ensures forall i :: 0 <= i < |d.images.value| ==>
      |d.images.value[i].title| <= IMAGE_TITLE_MAX_LENGTH && |d.images.value[i].imageUrl| <= URL_MAX_LENGTH
  {
    forall i | 0 <= i < |d.images.value|
      ensures |d.images.value[i].title| <= IMAGE_TITLE_MAX_LENGTH && |d.images.value[i].imageUrl| <= URL_MAX_LENGTH
    {
      var form := UpdateForm(partial);
      assert !Fails(sx, form, raw, ImageTitle(i)) && !Fails(sx, form, raw, ImageUrl(i));
    }
  }
}
