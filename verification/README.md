# Pereval submit and update, modelled in Dafny

This project models the core of the pereval ("mountain pass") API. Tourists submit a pass with:

- its names;
- four seasonal difficulty levels;
- the submitter;
- its coordinates;
- a list of photos.

A submitted pass can later be edited. The model is a set of pure functions over an immutable record store. The store (`Records.Store`) holds four tables, each a map from ids to records: submitters (`User`), coordinates (`Coords`), passes (`Pass`) and photos (`Image`). Each table has its own id sequence, and every stored id is below the next id of its table.

The model covers four layers:

- **Validation.** This is the create and update serializers' `is_valid()`:
  - the per-field rules derived from the model columns (required, blank, length caps, the PostgreSQL `integer` range of `height`);
  - the exact set of failing fields;
  - the validated data handed to `save()`.

  The syntax checks and coercions are abstract functions in a `Syntax` value: email and URL syntax, and float, integer and timestamp parsing.
- **Create** (`PerevalUserSerializer.create`, `PerevalAddedSerializer.create`). The submitter is re-validated and then resolved by `get_or_create` on the email. Zero matches create one submitter, one match reuses it unchanged, and several matches raise. Then come one coordinates row, one pass (status always `new`, `add_time` from the body or the clock) and one photo per element, in order.

  Nothing wraps these inserts in a transaction. The parameter `failAt` names the insert that raises, and every earlier insert stays.
- **Update** (`PerevalUpdateSerializer.update`, `to_representation`):
  - supplied text fields overwrite the stored ones;
  - a non-empty coordinates object is merged into the pass's own coordinates row;
  - a non-empty photo list replaces the pass's photos;
  - `user`, `status` and `add_time` are not in the field list, so they never change.

  The representation adds a `level` object built from the four level columns.
- **View** (`SubmitData.post`). The outcomes are:
  - an invalid body gives 400 with the field errors, and nothing is saved;
  - an exception from `save()` gives 500 with a null id;
  - success gives 200, the success message and the new id.

The proofs cover these properties:

- the exact store effect of a save;
- what a raising insert leaves behind;
- that emails stay unique and the store stays valid under create, update and post, where valid means linked foreign keys and values that fit their columns (text lengths, and `height` within the PostgreSQL `integer` range);
- the update frame conditions;
- the photo round trip (what was sent is what is rendered);
- idempotence of an update;
- that undeclared body keys (`status`, `level`, and for updates `user` and `add_time`) have no influence;
- the repository's three API tests, restated as lemmas.

Behaviour worth noting:

- **Responses.** A saved pass is answered 200 with the message `Отправлено успешно` and the new id (`fstr/pereval/views.py:19-24`). An exception from `save()` is answered 500 with `Ошибка при сохранении данных: ` followed by the exception text. An invalid body is answered 400 with the serializer's error mapping.
- **No transaction.** The inserts of `save()` are not wrapped in a transaction (`fstr/pereval/serializers.py:55-76`). A failure after the first insert leaves the earlier rows in place: `AddedSerializer.PhotoFailureKeepsPass`.
- **Required fields.** On create, `beauty_title`, `title`, `user.email`, `user.fam`, `user.name`, `coords` and `images` are required. `images: []` is accepted.
- **`add_time` on create.** It is in the create serializer's field list, so the body may set it; when absent it defaults to the clock.
- **`level` on input.** The create serializer reads only the four `level_<season>` fields. The sample body's `level.summer = "1А"` is therefore dropped and the stored levels are `""`: `Views.SampleAccepted`.
- **Unique emails.** The submitter model puts no uniqueness constraint on `email` (`fstr/pereval/models.py:4-9`). Uniqueness holds only because every create goes through `get_or_create`; the model proves that each operation keeps it.

## Model

| member | source | states |
|---|---|---|
| Records.StatusCodeRoundTrip | fstr/pereval/models.py:23-28 | each status has a code of at most 10 characters that parses back to that status |
| Records.StatusChoices | fstr/pereval/models.py:23-28 | a code is a status exactly when it is one of `new`, `pending`, `accepted`, `rejected` |
| Records.UsersWithEmail | fstr/pereval/serializers.py:12-13 | the lookup by email lists exactly the submitters with that email, in increasing id order |
| Records.ImagesOf | fstr/pereval/serializers.py:124 | `instance.images.all()` lists exactly the photos of the pass, in increasing id order |
| Records.InsertUserValid | fstr/pereval/models.py:4-9 | a new submitter that fits its columns keeps every foreign key resolved and every value within its column |
| Records.InsertUserUnique | fstr/pereval/serializers.py:12-20 | a new submitter whose email no submitter has keeps emails unique |
| Records.InsertPassValid | fstr/pereval/models.py:41-42 | a new pass keeps the store valid when it names a stored submitter and coordinates owned by no other pass |
| Records.AppendImagesValid | fstr/pereval/models.py:47-50 | new photo rows that fit their columns and name stored passes keep the store valid |
| Validation.TextErrors | fstr/pereval/models.py:30-38 | a text field is reported exactly when it is missing though required, blank though not blankable, or over its cap |
| Validation.ErrorsExact | fstr/pereval/serializers.py:42-53 | the reported error set contains exactly the fields the field-by-field rules reject |
| Validation.ValidateUser | fstr/pereval/models.py:4-9 | the submitter object is accepted exactly when email, fam and name are present, non-blank and within their caps, the email passes the syntax check and otc and phone are within their caps; the accepted data gives back the input |
| Validation.RevalidateUser | fstr/pereval/serializers.py:62-63 | the nested submitter serializer accepts the data the outer serializer already validated, unchanged |
| Validation.ValidateSubmit | fstr/pereval/serializers.py:42-53 | the body is accepted exactly when no field fails; a rejection lists exactly the failing fields and is never empty; accepted data carries the sent texts, submitter, parsed coordinates and photos in order |
| Validation.SubmitIgnoresUndeclared | fstr/pereval/serializers.py:49-53 | the result does not depend on `status` or `level`, which the create serializer does not declare |
| Validation.ValidatedDataFits | fstr/pereval/models.py:4-50 | data the create serializer accepts fits every column it is stored in: each text within its cap and the height within the `integer` range |
| Validation.ValidateUpdate | fstr/pereval/serializers.py:94-104 | the update body is accepted exactly when no declared field fails; accepted data carries exactly the supplied fields, with the sent texts, the photos in order and each supplied coordinate parsed from its sent value |
| Validation.UpdateIgnoresUndeclared | fstr/pereval/serializers.py:100-104 | the update result does not depend on `user`, `status`, `add_time` or `level` |
| Validation.ValidatedUpdateFits | fstr/pereval/models.py:30-50 | every text, height and photo an accepted update supplies fits its column |
| AddedSerializer.GetOrCreateUser | fstr/pereval/serializers.py:10-21 | one submitter with the email is reused unchanged with no write; none means exactly one new submitter from the data, absent otc and phone as `""`; several raise `MultipleObjectsReturned` (`MultipleUsersReturned` with the email) with the store untouched |
| AddedSerializer.CreateImagesSpec | fstr/pereval/serializers.py:73-74 | the photo loop stores every row in order unless an insert raises, in which case exactly the rows before it are stored |
| AddedSerializer.CreateImagesDone | fstr/pereval/serializers.py:73-74 | when none of the loop's inserts raises, every row is stored in order at consecutive ids and the insert count advances by the number of rows |
| AddedSerializer.CreateImagesRaise | fstr/pereval/serializers.py:73-74 | when one of the loop's inserts raises, exactly the rows before it are stored and that insert is reported |
| AddedSerializer.AppendImagesTwice | fstr/pereval/serializers.py:73-74 | inserting two lists of photo rows one after the other stores the same rows at the same ids as inserting their concatenation |
| AddedSerializer.CreateImagesExtends | fstr/pereval/serializers.py:73-74 | the photo loop only appends rows, one per insert done |
| AddedSerializer.SavePassOutcome | fstr/pereval/serializers.py:66-74 | after the submitter, the save succeeds exactly when none of its 2 + n inserts raises; a raise reports that insert, and the store then holds exactly the rows of the inserts before it (`SaveLeft`): none, the coordinates, or the coordinates, the pass and the first photos |
| AddedSerializer.SavePassLeaves | fstr/pereval/serializers.py:66-74 | a completed save leaves the coordinates, the pass and every photo; a raise at insert k leaves exactly the rows of the inserts before k |
| AddedSerializer.SavePhotosLeaves | fstr/pereval/serializers.py:73-74 | the photo inserts store every row, or, when one raises, exactly the rows before it |
| AddedSerializer.SavePassEffect | fstr/pereval/serializers.py:66-74 | a completed save adds one coordinates row, one pass linked to the submitter and those coordinates, and the photos in order at consecutive ids; nothing else changes |
| AddedSerializer.SavePhotosCount | fstr/pereval/serializers.py:73-74 | the photo inserts complete exactly when none of them raises; otherwise the raising one is reported and the inserts before it are counted |
| AddedSerializer.SavePassExtends | fstr/pereval/serializers.py:66-74 | the inserts after the submitter never change or remove an existing row, whichever insert raises |
| AddedSerializer.SavePassKeepsUsers | fstr/pereval/serializers.py:66-74 | the inserts after the submitter never touch the submitter table |
| AddedSerializer.SavePassValid | fstr/pereval/serializers.py:66-74 | the inserts after the submitter keep the store valid for data that fits the columns, whichever insert raises |
| AddedSerializer.NewPassFields | fstr/pereval/serializers.py:70 | the new pass has status `new`, `add_time` from the body or the clock, and the sent texts with absent ones `""` |
| AddedSerializer.SubmitEffectPass | fstr/pereval/models.py:34-39 | the pass a successful save stores has status `new` and the sent texts, absent ones `""` |
| AddedSerializer.CreateSpec | fstr/pereval/serializers.py:55-76 | `save()` succeeds exactly when the submitter re-validates, the email names at most one submitter and no insert raises; success does exactly `WritesNeeded` inserts with the table-by-table effect; a raising insert k leaves exactly the rows of the inserts before k (`CreateLeft`: the new submitter if any, then as for `SaveLeft`); other errors leave the store untouched |
| AddedSerializer.UserWrites | fstr/pereval/serializers.py:12-20 | the lookup resolves exactly when the email names one submitter, or none and the creating insert does not raise; a resolved lookup leaves `2 + n` inserts to do |
| AddedSerializer.CreateSaved | fstr/pereval/serializers.py:55-76 | `save()` succeeds exactly when the submitter re-validates, the email names at most one submitter and no insert raises |
| AddedSerializer.ValidUserSaved | fstr/pereval/serializers.py:62-76 | once the submitter re-validates, `save()` succeeds exactly when the email names at most one submitter and none of the `WritesNeeded` inserts raises |
| AddedSerializer.CreateRaised | fstr/pereval/serializers.py:55-76 | a raising insert k is one of the `WritesNeeded` inserts and leaves exactly the rows of the inserts before k (`CreateLeft`); a rejected submitter or a shared email leaves the store untouched |
| AddedSerializer.CreateEffect | fstr/pereval/serializers.py:55-76 | a successful `save()` does exactly `WritesNeeded` inserts with the table-by-table effect |
| AddedSerializer.CreateExtends | fstr/pereval/serializers.py:55-76 | whatever happens, `save()` never changes or removes an existing row |
| AddedSerializer.UniqueEmailsAtMostOne | fstr/pereval/serializers.py:12-20 | with unique emails the lookup finds at most one submitter, so it never raises for duplicates |
| AddedSerializer.CreateKeepsEmailsUnique | fstr/pereval/serializers.py:12-21 | `save()` keeps emails unique, whether or not it raises |
| AddedSerializer.CreateKeepsValid | fstr/pereval/serializers.py:55-76 | `save()` of data that fits the columns keeps the store valid, even when it raises midway |
| AddedSerializer.SavedUserIsOnly | fstr/pereval/serializers.py:12-20 | after a successful save the email names exactly the new pass's submitter |
| AddedSerializer.EffectSoleUser | fstr/pereval/serializers.py:12-20 | after the effect of a successful save, the new pass's submitter is the only one with the email |
| AddedSerializer.ReuseSoleUser | fstr/pereval/serializers.py:12-21 | when the email names exactly one submitter, the new pass links to it and the submitter table is unchanged |
| AddedSerializer.FirstWriteWins | fstr/pereval/serializers.py:12-20 | two saves with the same email share one submitter; the second save's name fields are ignored |
| AddedSerializer.PhotoFailureKeepsPass | fstr/pereval/serializers.py:66-74 | when the first photo insert raises, the coordinates and the `new` pass stay stored with no photo |
| AddedSerializer.FirstPhotoRaises | fstr/pereval/serializers.py:66-74 | once the submitter is resolved, a raising first photo insert keeps the coordinates and the `new` pass and stores no photo |
| UpdateSerializer.MergeText | fstr/pereval/serializers.py:112-114 | each text field becomes the supplied value or keeps its old one; submitter, status, `add_time` and coordinates are kept |
| UpdateSerializer.MergeCoords | fstr/pereval/serializers.py:117-120 | each supplied coordinate overwrites, each absent one is kept |
| UpdateSerializer.DropImagesOf | fstr/pereval/serializers.py:124 | the deletion removes exactly the photos of the pass and keeps every other photo unchanged |
| UpdateSerializer.UpdatePass | fstr/pereval/serializers.py:106-114 | the pass's supplied text fields change and the rest keep their values; `user`, `status`, `add_time` and the coordinates link never change; other passes and the submitters are untouched |
| UpdateSerializer.UpdateTables | fstr/pereval/serializers.py:111-114 | in the pass table only the updated pass changes, to its text merge; the submitters, their id sequence and the pass id sequence are untouched |
| UpdateSerializer.UpdateCoords | fstr/pereval/serializers.py:117-120 | a non-empty coordinates object is merged into the pass's own row in place; otherwise the coordinates table is untouched |
| UpdateSerializer.UpdateImages | fstr/pereval/serializers.py:123-126 | a non-empty list deletes the pass's photos and inserts the list at fresh ids; otherwise the photo table is untouched; other passes' photos never change |
| UpdateSerializer.PhotosOf | fstr/pereval/serializers.py:130-132 | the rendered photos are the title and URL of each photo of the pass, in id order |
| UpdateSerializer.Represent | fstr/pereval/serializers.py:133-138 | `level.<season>` is the stored `level_<season>` (`''` when empty) |
| UpdateSerializer.RepresentFields | fstr/pereval/serializers.py:130-139 | the rendering shows the stored texts, the pass's coordinates and its photos; `level` repeats the seasonal texts |
| UpdateSerializer.AppendedPhotos | fstr/pereval/serializers.py:125-126 | photos inserted at fresh ids for a pass that had none render as exactly the inserted list, in order |
| UpdateSerializer.ReplacedPhotos | fstr/pereval/serializers.py:123-126 | after the photos are replaced, the pass's rendered photos are exactly the sent list |
| UpdateSerializer.UpdateRepresentTexts | fstr/pereval/serializers.py:111-120 | after an update the rendering shows each supplied text over the old one, and the merged coordinates when a non-empty object was sent |
| UpdateSerializer.UpdateRepresentPhotos | fstr/pereval/serializers.py:123-132 | after an update the rendering shows the sent photos when the list was non-empty and the old photos otherwise |
| UpdateSerializer.UpdateThenRepresent | fstr/pereval/serializers.py:106-139 | the response after an update shows the supplied texts over the old ones, the merged coordinates, and the sent photos when the list was non-empty, else the old ones |
| UpdateSerializer.UpdateIdempotent | fstr/pereval/serializers.py:106-128 | applying the same update twice renders the same pass as applying it once |
| UpdateSerializer.EmptyUpdate | fstr/pereval/serializers.py:106-128 | an update without fields leaves the store unchanged |
| UpdateSerializer.EmptyImagesIsAbsent | fstr/pereval/serializers.py:123 | `images: []` has the same effect as omitting `images` |
| UpdateSerializer.EmptyCoordsIsAbsent | fstr/pereval/serializers.py:117 | a coordinates object without keys has the same effect as omitting `coords` |
| UpdateSerializer.UpdateKeepsValid | fstr/pereval/serializers.py:106-128 | an update whose texts, height and photos fit the columns keeps every foreign key resolved and every value within its column |
| UpdateSerializer.MergeStagesValid | fstr/pereval/serializers.py:111-120 | the text and coordinates stages of an update keep the store valid, the merged height included, when the supplied texts and height fit their columns |
| UpdateSerializer.ReplaceImagesValid | fstr/pereval/serializers.py:123-126 | replacing a stored pass's photos by fitting ones keeps the store valid |
| UpdateSerializer.UpdateKeepsEmailsUnique | fstr/pereval/serializers.py:106-128 | an update never touches submitters, so emails stay unique |
| UpdateSerializer.ApplyUpdate | fstr/pereval/serializers.py:94-128 | an update is applied exactly when the body validates, and the resulting store is the update of the validated data; otherwise the result is exactly the failing fields |
| UpdateSerializer.ApplyUpdateTexts | fstr/pereval/serializers.py:106-114 | after an applied update every text field of the pass is the sent value or its old one, and the submitter, status and `add_time` are kept |
| UpdateSerializer.ApplyUpdateKeepsValid | fstr/pereval/serializers.py:94-128 | applying an accepted update body to a stored pass keeps the store valid |
| UpdateSerializer.UpdateProtectsFields | fstr/pereval/serializers.py:100-104 | whatever the body says about `user`, `status`, `add_time` or `level`, the result is the same and the pass keeps its submitter, status and creation time |
| Views.Post | fstr/pereval/views.py:13-39 | the HTTP status equals the body status and is 200, 400 or 500; 400 exactly when some field fails, with the failing fields, a null id and the store unchanged; 200 carries the success message and an id; 500 has a null id and the save-error prefix |
| Views.PostSaveOutcome | fstr/pereval/views.py:16-32 | for a valid body the answer is 200 exactly when the email names at most one submitter and no insert raises; 200 reports the next pass id; existing rows are kept either way |
| Views.PostStoresTexts | fstr/pereval/views.py:17-24 | the pass a 200 answer reports has status `new` and the body's texts, absent ones `""` |
| Views.PostIgnoresUndeclared | fstr/pereval/serializers.py:49-53 | the keys `status` and `level` do not change the response or the store |
| Views.PostKeepsValid | fstr/pereval/views.py:13-39 | every request keeps a valid store valid |
| Views.PostKeepsEmailsUnique | fstr/pereval/views.py:13-39 | every request keeps emails unique |
| Views.MissingTitleRejected | fstr/pereval/views.py:33-39 | a body without `title` is answered 400 with a null id and nothing saved |
| Views.InvalidEmailRejected | fstr/pereval/views.py:33-39 | a body whose email fails the syntax check is answered 400 with a null id and nothing saved |
| Views.SubmitThenRepresent | fstr/pereval/serializers.py:130-139 | after a 200, rendering the new pass shows the sent texts (absent ones `""`), the sent coordinates and the sent photos in order |
| Views.ValidPostAccepted | fstr/pereval/views.py:16-24 | with unique emails and no insert raising, a valid body is answered 200 with the success message and the next pass id |
| Views.AbsentLevelStoredEmpty | fstr/pereval/serializers.py:49-53 | a seasonal level the body leaves out is stored as `""`, whatever `level` object the body carries |
| Views.AcceptedLevelEmpty | fstr/pereval/views.py:16-24 | a valid body without a seasonal level, posted with unique emails and no raising insert, is answered 200 and that level is stored as `""` |
| Views.SampleValid | fstr/pereval/tests.py:9-37 | the tests' sample body passes every field rule, given that its email, timestamp, numbers and URLs pass the syntax checks |
| Views.SampleAccepted | fstr/pereval/tests.py:39-44 | the sample body is answered 200 with the success message and a new id; its seasonal levels are stored `""` |
| Views.SampleWithoutTitleRejected | fstr/pereval/tests.py:46-52 | the sample without `title` is answered 400 |
| Views.SampleBadEmailRejected | fstr/pereval/tests.py:54-60 | the sample with email `invalid-email` is answered 400 |

## Left out

- The detail route `submitData/<int:pk>/` is left out. Its view `PerevalRetrieveUpdateView` is imported by `fstr/pereval/urls.py` but defined in none of the files modelled. The update serializer is modelled on its own, and `partial` is a parameter.
- `PerevalInfoSerializer`, the admin configuration, URL routing and the database smoke script hold no core logic.
- Concurrency is left out, including the `get_or_create` race on a new email: the model is single-threaded.
- Syntax and coercion are abstract. Email and URL syntax, and float, integer and timestamp parsing, are functions in `Syntax`. Latitude and longitude are `real` with no floating-point behaviour. Whitespace trimming and coercion of non-string JSON values are not modelled; every body value is a string or absent.
- Clock and exception text: `now` is a parameter and `str(e)` is the parameter `show`. Errors are sets of field paths, not the serializer's message texts.
- `UpdateSerializer.Update` has no failure path. A store error during the update's inserts or deletes is not modelled, unlike the create path.
- `coords_serializer.is_valid(raise_exception=True)` on update re-validates coordinates that were already validated. The model treats it as always succeeding.
- Photo order: `instance.images.all()` has no ordering in the model class, so the database may return any order. The model returns photos in id order, which is insertion order.
