/**
 * `SubmitData.post`: validate the body with the create serializer, save it,
 * and map the outcome to a response — 400 with the field errors when the
 * body is invalid (nothing is saved), 500 with the exception text when
 * `save()` raises, 200 with the new pass id otherwise.
 */
module Views {
  import opened Wrappers
  import opened Records
  import opened Validation
  import opened AddedSerializer
  import opened UpdateSerializer

  const HTTP_200_OK: int := 200
  const HTTP_400_BAD_REQUEST: int := 400
  const HTTP_500_INTERNAL_SERVER_ERROR: int := 500

  const SUCCESS_MESSAGE: string := "Отправлено успешно"
  const SAVE_ERROR_PREFIX: string := "Ошибка при сохранении данных: "

  /** The `message` of a response body: a text, or the serializer's errors by field. */
  datatype Message = Text(text: string) | FieldErrors(fields: set<Field>)

  /** The JSON body: `status` repeats the HTTP status, `id` is the new pass or null. */
  datatype Body = Body(status: int, message: Message, id: Option<nat>)

  datatype Response = Response(http: int, body: Body)

  /** A response together with the store the request left behind. */
  datatype Reply = Reply(response: Response, store: Store)

  /**
   * `post(request)`. `show` is `str()` of the raised exception, whose text is
   * not part of this model; `now` is the clock; `failAt` the insert that raises.
   */
  function Post(
    sx: Syntax, show: SaveError -> string, s: Store, raw: Payload, now: Time, failAt: Option<nat>): (r: Reply)
    ensures r.response.http == r.response.body.status
    ensures r.response.http in {HTTP_200_OK, HTTP_400_BAD_REQUEST, HTTP_500_INTERNAL_SERVER_ERROR}
    ensures r.response.http == HTTP_400_BAD_REQUEST <==> !forall f :: !Fails(sx, SubmitForm, raw, f)
    ensures r.response.http == HTTP_400_BAD_REQUEST ==>
      && r.store == s && r.response.body.id == None
      && r.response.body.message.FieldErrors?
      && forall f :: f in r.response.body.message.fields <==> Fails(sx, SubmitForm, raw, f)
    ensures r.response.http == HTTP_200_OK ==>
      r.response.body.message == Text(SUCCESS_MESSAGE) && r.response.body.id.Some?
    ensures r.response.http == HTTP_500_INTERNAL_SERVER_ERROR ==>
      && r.response.body.id == None
      && r.response.body.message.Text?
      && SAVE_ERROR_PREFIX <= r.response.body.message.text
  {
    match ValidateSubmit(sx, raw)
    case Failure(errs) =>
      Reply(Response(HTTP_400_BAD_REQUEST, Body(HTTP_400_BAD_REQUEST, FieldErrors(errs), None)), s)
    case Success(d) =>
      match Create(sx, s, d, now, failAt)
      case Saved(s', id) =>
        Reply(Response(HTTP_200_OK, Body(HTTP_200_OK, Text(SUCCESS_MESSAGE), Some(id))), s')
      case Raised(s', e) =>
        Reply(Response(HTTP_500_INTERNAL_SERVER_ERROR,
          Body(HTTP_500_INTERNAL_SERVER_ERROR, Text(SAVE_ERROR_PREFIX + show(e)), None)), s')
  }

  /**
   * For a valid body the save decides the response: 200 exactly when the
   * email names at most one submitter and no insert raises, and then the
   * new pass is the next id and the tables change as `SubmitEffect` says.
   * Either way the earlier rows are kept.
   */
  lemma PostSaveOutcome(
    sx: Syntax, show: SaveError -> string, s: Store, raw: Payload, now: Time, failAt: Option<nat>)
    requires forall f :: !Fails(sx, SubmitForm, raw, f)
    ensures var r, d := Post(sx, show, s, raw, now, failAt), ValidateSubmit(sx, raw).value;
      && Extends(s, r.store)
      && (r.response.http == HTTP_200_OK <==>
            |UsersWithEmail(s, d.user.email)| <= 1 && (failAt.None? || failAt.value >= WritesNeeded(s, d)))
      && (r.response.http == HTTP_200_OK ==>
            r.response.body.id == Some(s.nextPass) && SubmitEffect(s, d, now, r.store, s.nextPass))
  {
    var d := ValidateSubmit(sx, raw).value;
    AcceptedSubmit(sx, raw);
    assert raw.user == Some(UserInputOf(d.user));
    CreateSpec(sx, s, d, now, failAt);
    CreateExtends(sx, s, d, now, failAt);
  }

  /** The keys `status` and `level`, which the create serializer does not declare, change nothing. */
  lemma PostIgnoresUndeclared(
    sx: Syntax, show: SaveError -> string, s: Store, raw: Payload, now: Time, failAt: Option<nat>,
    status: Option<string>, level: Option<LevelInput>)
    ensures Post(sx, show, s, raw.(status := status, level := level), now, failAt) == Post(sx, show, s, raw, now, failAt)
  {
    SubmitIgnoresUndeclared(sx, raw, status, level);
  }

  /** Every request, whatever its outcome, leaves a valid store valid. */
  lemma PostKeepsValid(sx: Syntax, show: SaveError -> string, s: Store, raw: Payload, now: Time, failAt: Option<nat>)
    requires Valid(s)
    ensures Valid(Post(sx, show, s, raw, now, failAt).store)
  {
    var v := ValidateSubmit(sx, raw);
    if v.Success? {
      ValidatedDataFits(sx, raw);
      CreateKeepsValid(sx, s, v.value, now, failAt);
    }
  }

  /** Every request, whatever its outcome, keeps emails unique when they were. */
  lemma PostKeepsEmailsUnique(
    sx: Syntax, show: SaveError -> string, s: Store, raw: Payload, now: Time, failAt: Option<nat>)
    requires UniqueEmails(s)
    ensures UniqueEmails(Post(sx, show, s, raw, now, failAt).store)
  {
    var v := ValidateSubmit(sx, raw);
    if v.Success? {
      CreateKeepsEmailsUnique(sx, s, v.value, now, failAt);
    }
  }

  /** A body without `title` is answered 400 and nothing is saved. */
  lemma MissingTitleRejected(
    sx: Syntax, show: SaveError -> string, s: Store, raw: Payload, now: Time, failAt: Option<nat>)
    requires raw.title.None?
    ensures var r := Post(sx, show, s, raw, now, failAt);
      r.response.http == HTTP_400_BAD_REQUEST && r.response.body.status == HTTP_400_BAD_REQUEST
      && r.response.body.id == None && r.store == s
  {
    assert Fails(sx, SubmitForm, raw, PassText(Title));
  }

  /** A body whose submitter email fails the email syntax check is answered 400 and nothing is saved. */
  lemma InvalidEmailRejected(
    sx: Syntax, show: SaveError -> string, s: Store, raw: Payload, now: Time, failAt: Option<nat>)
    requires raw.user.Some? && raw.user.value.email.Some? && !sx.isEmail(raw.user.value.email.value)
    ensures var r := Post(sx, show, s, raw, now, failAt);
      r.response.http == HTTP_400_BAD_REQUEST && r.response.body.status == HTTP_400_BAD_REQUEST
      && r.response.body.id == None && r.store == s
  {
    assert Fails(sx, SubmitForm, raw, UserEmail);
  }

  /**
   * After a successful submit, rendering the new pass gives back what was
   * sent: its texts (absent ones as `""`), its coordinates and its photos in
   * order; `level` repeats the seasonal texts.
   */
  lemma SubmitThenRepresent(
    sx: Syntax, show: SaveError -> string, s: Store, raw: Payload, now: Time, failAt: Option<nat>)
    requires Linked(s)
    requires Post(sx, show, s, raw, now, failAt).response.http == HTTP_200_OK
    ensures var r := Post(sx, show, s, raw, now, failAt);
      && s.nextPass in r.store.passes && r.store.passes[s.nextPass].coords in r.store.coords
      && var d, v := ValidateSubmit(sx, raw).value, Represent(r.store, s.nextPass);
      && (forall t :: v.Text(t) == d.Text(t).GetOr(""))
      && (forall season :: v.level.Get(season) == d.Text(Level(season)).GetOr(""))
      && v.coords == d.coords
      && v.images == d.images
  {
    var r := Post(sx, show, s, raw, now, failAt);
    assert forall f :: !Fails(sx, SubmitForm, raw, f);
    PostSaveOutcome(sx, show, s, raw, now, failAt);
    var d := ValidateSubmit(sx, raw).value;
    var found := UsersWithEmail(s, d.user.email);
    var s1 := if |found| == 1 then s else InsertUser(s, NewUser(d.user));
    var user := if |found| == 1 then found[0] else s.nextUser;
    assert PassSaved(s1, d, now, user, r.store, s.nextPass);
    assert forall j :: j in s1.images ==> s1.images[j].pass != s.nextPass;
    AppendedPhotos(r.store, s1.images, s1.nextImage, s.nextPass, d.images);
    RepresentFields(r.store, s.nextPass);
  }

  /** The body of the repository's submit tests, with its `level` object. */
  function SamplePayload(): Payload {
    Payload(
      Some("пер. "), Some("Пхия"), Some("Триев"), Some(""), Some("2021-09-22 13:18:13"),
      None, None, None, None,
      None,
      Some(LevelInput(Some(""), Some("1А"), Some("1А"), Some(""))),
      Some(UserInput(Some("qwerty@mail.ru"), Some("Пупкин"), Some("Василий"), Some("Иванович"), Some("+7 555 55 55"))),
      Some(CoordsInput(Some("45.3842"), Some("7.1525"), Some("1200"))),
      Some([
        ImageInput(Some("Седловина"), Some("https://example.com/photo1.jpg")),
        ImageInput(Some("Подъём"), Some("https://example.com/photo2.jpg"))]))
  }

  /** What the sample needs from the syntax checks: its email, timestamp, numbers and URLs parse. */
  predicate SampleSyntax(sx: Syntax) {
    && sx.isEmail("qwerty@mail.ru")
    && sx.toTime("2021-09-22 13:18:13").Some?
    && sx.toFloat("45.3842").Some? && sx.toFloat("7.1525").Some?
    && sx.toInt("1200") == Some(1200)
    && sx.isUrl("https://example.com/photo1.jpg") && sx.isUrl("https://example.com/photo2.jpg")
  }

  lemma SampleValid(sx: Syntax)
    requires SampleSyntax(sx)
    ensures forall f :: !Fails(sx, SubmitForm, SamplePayload(), f)
  {
    var raw := SamplePayload();
    forall f: Field
      ensures !Fails(sx, SubmitForm, raw, f)
    {
      match f {
        case PassText(t) =>
          TextFieldCases(t);
        case ImageTitle(i) =>
        case ImageUrl(i) =>
        case _ =>
      }
    }
  }

  /** With emails unique and no insert raising, a valid body is saved: 200, the success message, the next id. */
  lemma ValidPostAccepted(sx: Syntax, show: SaveError -> string, s: Store, raw: Payload, now: Time)
    requires forall f :: !Fails(sx, SubmitForm, raw, f)
    requires UniqueEmails(s)
    ensures var r := Post(sx, show, s, raw, now, None);
      r.response == Response(HTTP_200_OK, Body(HTTP_200_OK, Text(SUCCESS_MESSAGE), Some(s.nextPass)))
  {
    UniqueEmailsAtMostOne(s, ValidateSubmit(sx, raw).value.user.email);
    PostSaveOutcome(sx, show, s, raw, now, None);
  }

  /**
   * The pass a 200 response reports carries status `new` and the sent texts,
   * a text the body leaves out stored as `""`.
   */
  lemma PostStoresTexts(sx: Syntax, show: SaveError -> string, s: Store, raw: Payload, now: Time, failAt: Option<nat>)
    requires Post(sx, show, s, raw, now, failAt).response.http == HTTP_200_OK
    ensures var r := Post(sx, show, s, raw, now, failAt);
      && s.nextPass in r.store.passes && r.store.passes[s.nextPass].status == New
      && forall t :: r.store.passes[s.nextPass].Text(t) == raw.Text(t).GetOr("")
  {
    var r := Post(sx, show, s, raw, now, failAt);
    var v := ValidateSubmit(sx, raw);
    assert v.Success?;
    PostSaveOutcome(sx, show, s, raw, now, failAt);
    SubmitEffectPass(s, v.value, now, r.store, s.nextPass);
  }

  /** A seasonal level the body leaves out is stored empty; the `level` object is no substitute. */
  lemma AbsentLevelStoredEmpty(
    sx: Syntax, show: SaveError -> string, s: Store, raw: Payload, now: Time, failAt: Option<nat>, season: Season)
    requires raw.Text(Level(season)).None?
    requires Post(sx, show, s, raw, now, failAt).response.http == HTTP_200_OK
    ensures var r := Post(sx, show, s, raw, now, failAt);
      s.nextPass in r.store.passes && r.store.passes[s.nextPass].Text(Level(season)) == ""
  {
    PostStoresTexts(sx, show, s, raw, now, failAt);
  }

  /** With emails unique and no insert raising, a valid body without a seasonal level stores that level empty. */
  lemma AcceptedLevelEmpty(sx: Syntax, show: SaveError -> string, s: Store, raw: Payload, now: Time, season: Season)
    requires forall f :: !Fails(sx, SubmitForm, raw, f)
    requires UniqueEmails(s) && raw.Text(Level(season)).None?
    ensures var r := Post(sx, show, s, raw, now, None);
      && r.response == Response(HTTP_200_OK, Body(HTTP_200_OK, Text(SUCCESS_MESSAGE), Some(s.nextPass)))
      && s.nextPass in r.store.passes
      && r.store.passes[s.nextPass].Text(Level(season)) == ""
  {
    ValidPostAccepted(sx, show, s, raw, now);
    AbsentLevelStoredEmpty(sx, show, s, raw, now, None, season);
  }

  /** The sample sends no seasonal level as a top-level field. */
  lemma SampleLevelsAbsent(season: Season)
    ensures SamplePayload().Text(Level(season)).None?
  {
  }

  /**
   * The sample body is saved: 200, the success message and the new id. Its
   * `level` object is not read, so the stored seasonal levels stay empty.
   */
  lemma SampleAccepted(sx: Syntax, show: SaveError -> string, s: Store, raw: Payload, now: Time, season: Season)
    requires raw == SamplePayload()
    requires SampleSyntax(sx) && UniqueEmails(s)
    ensures var r := Post(sx, show, s, raw, now, None);
      && r.response == Response(HTTP_200_OK, Body(HTTP_200_OK, Text(SUCCESS_MESSAGE), Some(s.nextPass)))
      && s.nextPass in r.store.passes
      && r.store.passes[s.nextPass].Text(Level(season)) == ""
  {
    SampleValid(sx);
    SampleLevelsAbsent(season);
    AcceptedLevelEmpty(sx, show, s, raw, now, season);
  }

  /** The sample without `title` is answered 400. */
  lemma SampleWithoutTitleRejected(sx: Syntax, show: SaveError -> string, s: Store, now: Time, failAt: Option<nat>)
    ensures Post(sx, show, s, SamplePayload().(title := None), now, failAt).response.http == HTTP_400_BAD_REQUEST
  {
    MissingTitleRejected(sx, show, s, SamplePayload().(title := None), now, failAt);
  }

  /** The sample with the email `invalid-email`, which the email check refuses, is answered 400. */
  lemma SampleBadEmailRejected(sx: Syntax, show: SaveError -> string, s: Store, now: Time, failAt: Option<nat>)
    requires !sx.isEmail("invalid-email")
    ensures var raw := SamplePayload();
      var bad := raw.(user := Some(raw.user.value.(email := Some("invalid-email"))));
      Post(sx, show, s, bad, now, failAt).response.http == HTTP_400_BAD_REQUEST
  {
    var raw := SamplePayload();
    InvalidEmailRejected(sx, show, s, raw.(user := Some(raw.user.value.(email := Some("invalid-email")))), now, failAt);
  }
}
