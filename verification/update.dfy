/**
 * `PerevalUpdateSerializer`: `update()` merges the supplied scalar fields
 * into the pass, merges a non-empty coordinates object into the pass's own
 * coordinates row, and replaces the photos only when a non-empty photo list
 * is supplied; `to_representation()` renders the pass with a derived `level`
 * object. The serializer's field list has no `user`, `status` or `add_time`.
 */
module UpdateSerializer {
  import opened Wrappers
  import opened Records
  import opened Validation

  /** The `setattr` loop: every supplied scalar field overwrites the pass's value. */
  function MergeText(p: Pass, d: UpdateData): (r: Pass)
    ensures forall t :: r.Text(t) == d.Text(t).GetOr(p.Text(t))
    ensures r.addTime == p.addTime && r.status == p.status && r.user == p.user && r.coords == p.coords
  {
    var r := p.(
      beautyTitle := d.beautyTitle.GetOr(p.beautyTitle),
      title := d.title.GetOr(p.title),
      otherTitles := d.otherTitles.GetOr(p.otherTitles),
      connect := d.connect.GetOr(p.connect),
      levelWinter := d.levelWinter.GetOr(p.levelWinter),
      levelSummer := d.levelSummer.GetOr(p.levelSummer),
      levelAutumn := d.levelAutumn.GetOr(p.levelAutumn),
      levelSpring := d.levelSpring.GetOr(p.levelSpring));
    assert forall t :: r.Text(t) == d.Text(t).GetOr(p.Text(t)) by {
      forall t: TextField
        ensures r.Text(t) == d.Text(t).GetOr(p.Text(t))
      {
        TextFieldCases(t);
      }
    }
    r
  }

  /** The nested `partial=True` save of the coordinates: supplied coordinates overwrite, the rest stay. */
  function MergeCoords(c: Coords, patch: CoordsPatch): (r: Coords)
    ensures patch.latitude.Some? ==> r.latitude == patch.latitude.value
    ensures patch.latitude.None? ==> r.latitude == c.latitude
    ensures patch.longitude.Some? ==> r.longitude == patch.longitude.value
    ensures patch.longitude.None? ==> r.longitude == c.longitude
    ensures patch.height.Some? ==> r.height == patch.height.value
    ensures patch.height.None? ==> r.height == c.height
  {
    Coords(patch.latitude.GetOr(c.latitude), patch.longitude.GetOr(c.longitude), patch.height.GetOr(c.height))
  }

  /** `if coords_data:` — a coordinates object with at least one key. */
  predicate MergesCoords(d: UpdateData) {
    d.coords.Some? && !d.coords.value.IsEmpty()
  }

  /** `if images_data:` — a photo list with at least one element; `[]` is false in Python. */
  predicate ReplacesImages(d: UpdateData) {
    d.images.Some? && d.images.value != []
  }

  /** `instance.images.all().delete()`: the photo table without the photos of `pass`. */
  function DropImagesOf(images: map<nat, Image>, pass: nat): (r: map<nat, Image>)
    ensures forall k :: k in r <==> k in images && images[k].pass != pass
    ensures forall k :: k in r ==> r[k] == images[k]
  {
    map k | k in images && images[k].pass != pass :: images[k]
  }

  /** The photos of pass `id` replaced by `imgs`, the new rows at fresh ids in list order. */
  function ReplaceImages(s: Store, id: nat, imgs: seq<ImageData>): Store {
    AppendImages(s.(images := DropImagesOf(s.images, id)), AttachAll(id, imgs))
  }

  /** `update(instance, validated_data)` on the pass with id `id`. */
  function Update(s: Store, id: nat, d: UpdateData): Store
    requires id in s.passes && s.passes[id].coords in s.coords
  {
    var s2 := MergeStages(s, id, d);
    if ReplacesImages(d) then ReplaceImages(s2, id, d.images.value) else s2
  }

  /** The first two stages of an update: `setattr` and `save()` on the pass, then the coordinates merge. */
  function MergeStages(s: Store, id: nat, d: UpdateData): Store
    requires id in s.passes && s.passes[id].coords in s.coords
  {
    var p := s.passes[id];
    var s1 := s.(passes := s.passes[id := MergeText(p, d)]);
    if MergesCoords(d) then s1.(coords := s1.coords[p.coords := MergeCoords(s1.coords[p.coords], d.coords.value)])
    else s1
  }

  /** The pass after the update: supplied fields changed, the rest, and `user`, `status`, `add_time`, kept. */
  lemma UpdatePass(s: Store, id: nat, d: UpdateData)
    requires id in s.passes && s.passes[id].coords in s.coords
    ensures var s' := Update(s, id, d);
      && s'.passes.Keys == s.passes.Keys
      && (forall k :: k in s.passes && k != id ==> s'.passes[k] == s.passes[k])
      && var p, p' := s.passes[id], s'.passes[id];
      && (forall t :: p'.Text(t) == d.Text(t).GetOr(p.Text(t)))
      && p'.user == p.user && p'.status == p.status && p'.addTime == p.addTime && p'.coords == p.coords
      && s'.users == s.users && s'.nextPass == s.nextPass
  {
    UpdateTables(s, id, d);
  }

  /** Only the pass's own row of the pass table changes, and the submitters not at all. */
  lemma UpdateTables(s: Store, id: nat, d: UpdateData)
    requires id in s.passes && s.passes[id].coords in s.coords
    ensures var s' := Update(s, id, d);
      && s'.passes == s.passes[id := MergeText(s.passes[id], d)]
      && s'.users == s.users && s'.nextUser == s.nextUser && s'.nextPass == s.nextPass
  {
    var s2 := MergeStages(s, id, d);
    assert s2.passes == s.passes[id := MergeText(s.passes[id], d)];
    assert s2.users == s.users && s2.nextPass == s.nextPass;
  }

  /** The coordinates after the update: the pass's own row merged in place when a non-empty object is sent. */
  lemma UpdateCoords(s: Store, id: nat, d: UpdateData)
    requires id in s.passes && s.passes[id].coords in s.coords
    ensures var s', c := Update(s, id, d), s.passes[id].coords;
      && (MergesCoords(d) ==> s'.coords == s.coords[c := MergeCoords(s.coords[c], d.coords.value)])
      && (!MergesCoords(d) ==> s'.coords == s.coords)
      && s'.nextCoords == s.nextCoords
  {
  }

  /**
   * The photos after the update: with a non-empty list every photo of the
   * pass is deleted and the list inserted; otherwise the photo table is
   * untouched. Photos of other passes are never touched.
   */
  lemma UpdateImages(s: Store, id: nat, d: UpdateData)
    requires id in s.passes && s.passes[id].coords in s.coords
    ensures var s' := Update(s, id, d);
      && (!ReplacesImages(d) ==> s'.images == s.images && s'.nextImage == s.nextImage)
      && (ReplacesImages(d) ==>
            && s'.images == DropImagesOf(s.images, id) + ImageRows(s.nextImage, AttachAll(id, d.images.value))
            && s'.nextImage == s.nextImage + |d.images.value|)
      && (forall k :: k in s.images && s.images[k].pass != id ==> k in s'.images && s'.images[k] == s.images[k])
      && (forall k :: k in s'.images && s'.images[k].pass != id ==> k in s.images)
  {
    if ReplacesImages(d) {
      var rows := ImageRows(s.nextImage, AttachAll(id, d.images.value));
      assert forall k :: k in rows ==> rows[k].pass == id;
    }
  }

  /** The `level` object of the response. */
  datatype LevelView = LevelView(winter: string, summer: string, autumn: string, spring: string) {
    function Get(season: Season): string {
      match season
      case Winter => winter
      case Summer => summer
      case Autumn => autumn
      case Spring => spring
    }
  }

  /** A pass as `to_representation()` renders it: the declared fields plus `level`. */
  datatype PassView = PassView(
    beautyTitle: string,
    title: string,
    otherTitles: string,
    connect: string,
    levelWinter: string,
    levelSummer: string,
    levelAutumn: string,
    levelSpring: string,
    coords: Coords,
    images: seq<ImageData>,
    level: LevelView)
  {
    function Text(f: TextField): string {
      match f
      case BeautyTitle => beautyTitle
      case Title => title
      case OtherTitles => otherTitles
      case Connect => connect
      case Level(Winter) => levelWinter
      case Level(Summer) => levelSummer
      case Level(Autumn) => levelAutumn
      case Level(Spring) => levelSpring
    }
  }

  /** Python's `value or ''`: a falsy (empty) string becomes `''`. */
  function OrEmpty(v: string): string {
    if v == "" then "" else v
  }

  /** A photo row as the photo serializer renders it. */
  function Photo(img: Image): ImageData {
    ImageData(img.title, img.imageUrl)
  }

  /** The rows at `ids`, in that order, as the photo serializer renders them. */
  function PhotoList(images: map<nat, Image>, ids: seq<nat>): (r: seq<ImageData>)
    requires forall i :: 0 <= i < |ids| ==> ids[i] in images
    ensures |r| == |ids|
    ensures forall i :: 0 <= i < |r| ==> r[i] == Photo(images[ids[i]])
  {
    if ids == [] then [] else [Photo(images[ids[0]])] + PhotoList(images, ids[1..])
  }

  /** The photos of a pass in id order, as the photo serializer renders them. */
  function PhotosOf(s: Store, id: nat): (r: seq<ImageData>)
    ensures |r| == |ImagesOf(s, id)|
    ensures forall i :: 0 <= i < |r| ==> ImagesOf(s, id)[i] in s.images && r[i] == Photo(s.images[ImagesOf(s, id)[i]])
  {
    PhotoList(s.images, ImagesOf(s, id))
  }

  /** `to_representation(instance)` for the pass with id `id`. */
  function Represent(s: Store, id: nat): (r: PassView)
    requires id in s.passes && s.passes[id].coords in s.coords
    ensures forall season :: r.level.Get(season) == s.passes[id].Level(season)
  {
    var p := s.passes[id];
    PassView(
      p.beautyTitle, p.title, p.otherTitles, p.connect,
      p.levelWinter, p.levelSummer, p.levelAutumn, p.levelSpring,
      s.coords[p.coords], PhotosOf(s, id),
      LevelView(OrEmpty(p.levelWinter), OrEmpty(p.levelSummer), OrEmpty(p.levelAutumn), OrEmpty(p.levelSpring)))
  }

  /** The rendered text fields are the stored ones, and `level` repeats the seasonal ones. */
  lemma RepresentFields(s: Store, id: nat)
    requires id in s.passes && s.passes[id].coords in s.coords
    ensures var r, p := Represent(s, id), s.passes[id];
      && (forall t :: r.Text(t) == p.Text(t))
      && (forall season :: r.level.Get(season) == r.Text(Level(season)))
      && r.coords == s.coords[p.coords]
      && r.images == PhotosOf(s, id)
  {
    var r, p := Represent(s, id), s.passes[id];
    forall t: TextField
      ensures r.Text(t) == p.Text(t)
    {
      TextFieldCases(t);
    }
    forall season: Season
      ensures r.level.Get(season) == r.Text(Level(season))
    {
      assert r.Text(Level(season)) == p.Level(season);
    }
  }

  /** Two renderings agree when their text fields, coordinates and photos do. */
  lemma ViewsEqual(a: PassView, b: PassView)
    requires forall t :: a.Text(t) == b.Text(t)
    requires forall season :: a.level.Get(season) == b.level.Get(season)
    requires a.coords == b.coords && a.images == b.images
    ensures a == b
  {
    assert a.Text(BeautyTitle) == b.Text(BeautyTitle) && a.Text(Title) == b.Text(Title);
    assert a.Text(OtherTitles) == b.Text(OtherTitles) && a.Text(Connect) == b.Text(Connect);
    assert a.Text(Level(Winter)) == b.Text(Level(Winter)) && a.Text(Level(Summer)) == b.Text(Level(Summer));
    assert a.Text(Level(Autumn)) == b.Text(Level(Autumn)) && a.Text(Level(Spring)) == b.Text(Level(Spring));
    assert a.level.Get(Winter) == b.level.Get(Winter) && a.level.Get(Summer) == b.level.Get(Summer);
    assert a.level.Get(Autumn) == b.level.Get(Autumn) && a.level.Get(Spring) == b.level.Get(Spring);
  }

  /**
   * When the photo table is `older`, which has no photo of `pass`, plus
   * rows for `imgs` at consecutive ids from `base`, the photos of `pass` are
   * exactly those rows.
   */
  lemma AppendedMembers(s: Store, older: map<nat, Image>, base: nat, pass: nat, imgs: seq<ImageData>, k: nat)
    requires forall j :: j in older ==> older[j].pass != pass
    requires s.images == older + ImageRows(base, AttachAll(pass, imgs))
    ensures (k in s.images && s.images[k].pass == pass) <==> base <= k < base + |imgs|
    ensures base <= k < base + |imgs| ==> k in s.images && s.images[k] == imgs[k - base].Attach(pass)
  {
    var rows := AttachAll(pass, imgs);
    RowsAt(s.images, older, base, rows, k);
    if base <= k < base + |imgs| {
      assert rows[k - base] == imgs[k - base].Attach(pass);
    }
  }

  /** When the photos of `pass` are exactly the ids `[lo, hi)`, the scan lists those ids in order. */
  lemma ImagesOfBlock(s: Store, pass: nat, lo: nat, hi: nat)
    requires lo <= hi <= s.nextImage
    requires forall k :: k < s.nextImage ==> (k in s.images && s.images[k].pass == pass <==> lo <= k < hi)
    ensures |ImagesOf(s, pass)| == hi - lo
    ensures forall i :: 0 <= i < hi - lo ==> ImagesOf(s, pass)[i] == lo + i
  {
    AscendingBlock((set k | k in s.images && s.images[k].pass == pass), s.nextImage, lo, hi);
    BlockIndex(lo, hi);
  }

  /** Under the same layout, the ids of the photos of `pass` are the block from `base`, in order. */
  lemma AppendedIds(s: Store, older: map<nat, Image>, base: nat, pass: nat, imgs: seq<ImageData>)
    requires forall j :: j in older ==> older[j].pass != pass
    requires s.images == older + ImageRows(base, AttachAll(pass, imgs))
    ensures |ImagesOf(s, pass)| == |imgs|
    ensures forall i :: 0 <= i < |imgs| ==> ImagesOf(s, pass)[i] == base + i
  {
    var lo := if imgs == [] then 0 else base;
    forall k: nat | k < s.nextImage
      ensures k in s.images && s.images[k].pass == pass <==> lo <= k < lo + |imgs|
    {
      AppendedMembers(s, older, base, pass, imgs, k);
    }
    if imgs != [] {
      AppendedMembers(s, older, base, pass, imgs, base + |imgs| - 1);
    }
    ImagesOfBlock(s, pass, lo, lo + |imgs|);
  }

  /** The row at `base + i` renders as `img` when it is `img` attached to some pass. */
  lemma AppendedRow(images: map<nat, Image>, older: map<nat, Image>, base: nat, rows: seq<Image>, i: nat, img: ImageData)
    requires images == older + ImageRows(base, rows)
    requires i < |rows| && rows[i] == img.Attach(rows[i].pass)
    ensures base + i in images && Photo(images[base + i]) == img
  {
    RowsAt(images, older, base, rows, base + i);
  }

  /** Rows at `ids` that render one by one as `imgs` render together as `imgs`. */
  lemma PhotoListOf(images: map<nat, Image>, ids: seq<nat>, imgs: seq<ImageData>)
    requires |ids| == |imgs|
    requires forall i :: 0 <= i < |ids| ==> ids[i] in images && Photo(images[ids[i]]) == imgs[i]
    ensures PhotoList(images, ids) == imgs
  {
    var r := PhotoList(images, ids);
    assert forall i :: 0 <= i < |imgs| ==> r[i] == imgs[i];
  }

  /** Every sent photo sits at its id from `base` on. */
  lemma AppendedRows(images: map<nat, Image>, older: map<nat, Image>, base: nat, pass: nat, imgs: seq<ImageData>)
    requires images == older + ImageRows(base, AttachAll(pass, imgs))
    ensures forall i :: 0 <= i < |imgs| ==> base + i in images && Photo(images[base + i]) == imgs[i]
  {
    var rows := AttachAll(pass, imgs);
    forall i | 0 <= i < |imgs|
      ensures base + i in images && Photo(images[base + i]) == imgs[i]
    {
      AppendedRow(images, older, base, rows, i, imgs[i]);
    }
  }

  /** Under the same layout, the photos of `pass` render, in id order, as `imgs`. */
  lemma {:induction false} AppendedPhotos(s: Store, older: map<nat, Image>, base: nat, pass: nat, imgs: seq<ImageData>)
    requires forall j :: j in older ==> older[j].pass != pass
    requires s.images == older + ImageRows(base, AttachAll(pass, imgs))
    ensures PhotosOf(s, pass) == imgs
  {
    AppendedIds(s, older, base, pass, imgs);
    AppendedRows(s.images, older, base, pass, imgs);
    PhotosFromIds(s, pass, base, imgs);
  }

  /** Photos whose ids run from `base` and whose rows render as `imgs` render together as `imgs`. */
  lemma PhotosFromIds(s: Store, pass: nat, base: nat, imgs: seq<ImageData>)
    requires |ImagesOf(s, pass)| == |imgs|
    requires forall i :: 0 <= i < |imgs| ==> ImagesOf(s, pass)[i] == base + i
    requires forall i :: 0 <= i < |imgs| ==> base + i in s.images && Photo(s.images[base + i]) == imgs[i]
    ensures PhotosOf(s, pass) == imgs
  {
    var ids := ImagesOf(s, pass);
    forall i | 0 <= i < |ids|
      ensures ids[i] in s.images && Photo(s.images[ids[i]]) == imgs[i]
    {
      assert ids[i] == base + i;
      assert base + i in s.images && Photo(s.images[base + i]) == imgs[i];
    }
    PhotoListOf(s.images, ids, imgs);
  }

  /** After a replacing update the pass's photos, rendered in id order, are exactly the sent list. */
  lemma ReplacedPhotos(s: Store, id: nat, imgs: seq<ImageData>)
    ensures PhotosOf(ReplaceImages(s, id, imgs), id) == imgs
  {
    AppendedPhotos(ReplaceImages(s, id, imgs), DropImagesOf(s.images, id), s.nextImage, id, imgs);
  }

  /** The rendered texts and coordinates after an update. */
  lemma UpdateRepresentTexts(s: Store, id: nat, d: UpdateData)
    requires id in s.passes && s.passes[id].coords in s.coords
    ensures var s' := Update(s, id, d);
      id in s'.passes && s'.passes[id].coords in s'.coords
    ensures var v, v' := Represent(s, id), Represent(Update(s, id, d), id);
      && (forall t :: v'.Text(t) == d.Text(t).GetOr(v.Text(t)))
      && (MergesCoords(d) ==> v'.coords == MergeCoords(v.coords, d.coords.value))
      && (!MergesCoords(d) ==> v'.coords == v.coords)
  {
    UpdatePass(s, id, d);
    UpdateCoords(s, id, d);
    RepresentFields(s, id);
    RepresentFields(Update(s, id, d), id);
  }

  /** The rendered photos after an update. */
  lemma UpdateRepresentPhotos(s: Store, id: nat, d: UpdateData)
    requires id in s.passes && s.passes[id].coords in s.coords
    ensures var s' := Update(s, id, d);
      id in s'.passes && s'.passes[id].coords in s'.coords
    ensures var v, v' := Represent(s, id), Represent(Update(s, id, d), id);
      && (ReplacesImages(d) ==> v'.images == d.images.value)
      && (!ReplacesImages(d) ==> v'.images == v.images)
  {
    UpdatePass(s, id, d);
    UpdateCoords(s, id, d);
    var s2 := MergeStages(s, id, d);
    if ReplacesImages(d) {
      ReplacedPhotos(s2, id, d.images.value);
    } else {
      assert s2.images == s.images && s2.nextImage == s.nextImage;
      assert ImagesOf(s2, id) == ImagesOf(s, id);
    }
  }

  /**
   * The response after an update: supplied text fields replaced, coordinates
   * merged when a non-empty object was sent, and the photos exactly the sent
   * list when it was non-empty, otherwise as before.
   */
  lemma UpdateThenRepresent(s: Store, id: nat, d: UpdateData)
    requires id in s.passes && s.passes[id].coords in s.coords
    ensures var s' := Update(s, id, d);
      id in s'.passes && s'.passes[id].coords in s'.coords
    ensures var v, v' := Represent(s, id), Represent(Update(s, id, d), id);
      && (forall t :: v'.Text(t) == d.Text(t).GetOr(v.Text(t)))
      && (MergesCoords(d) ==> v'.coords == MergeCoords(v.coords, d.coords.value))
      && (!MergesCoords(d) ==> v'.coords == v.coords)
      && (ReplacesImages(d) ==> v'.images == d.images.value)
      && (!ReplacesImages(d) ==> v'.images == v.images)
  {
    UpdateRepresentTexts(s, id, d);
    UpdateRepresentPhotos(s, id, d);
  }

  /** Sending the same update twice renders the same pass as sending it once. */
  lemma UpdateIdempotent(s: Store, id: nat, d: UpdateData)
    requires id in s.passes && s.passes[id].coords in s.coords
    ensures var s' := Update(s, id, d);
      && id in s'.passes && s'.passes[id].coords in s'.coords
      && Represent(Update(s', id, d), id) == Represent(s', id)
  {
    var s' := Update(s, id, d);
    UpdateThenRepresent(s, id, d);
    UpdateThenRepresent(s', id, d);
    var s'' := Update(s', id, d);
    RepresentFields(s', id);
    RepresentFields(s'', id);
    MergeViewTwice(Represent(s, id), Represent(s', id), Represent(s'', id), d);
  }

  /** Merging the same update into a rendering twice gives what merging it once gives. */
  lemma MergeViewTwice(v: PassView, v': PassView, v'': PassView, d: UpdateData)
    requires forall t :: v'.Text(t) == d.Text(t).GetOr(v.Text(t))
    requires forall t :: v''.Text(t) == d.Text(t).GetOr(v'.Text(t))
    requires forall season :: v'.level.Get(season) == v'.Text(Level(season))
    requires forall season :: v''.level.Get(season) == v''.Text(Level(season))
    requires MergesCoords(d) ==> v'.coords == MergeCoords(v.coords, d.coords.value)
    requires MergesCoords(d) ==> v''.coords == MergeCoords(v'.coords, d.coords.value)
    requires !MergesCoords(d) ==> v''.coords == v'.coords
    requires ReplacesImages(d) ==> v'.images == d.images.value && v''.images == d.images.value
    requires !ReplacesImages(d) ==> v''.images == v'.images
    ensures v'' == v'
  {
    forall t
      ensures v''.Text(t) == v'.Text(t)
    {
      assert v'.Text(t) == d.Text(t).GetOr(v.Text(t));
    }
    forall season
      ensures v''.level.Get(season) == v'.level.Get(season)
    {
      assert v''.Text(Level(season)) == v'.Text(Level(season));
    }
    ViewsEqual(v'', v');
  }

  /** An update with no fields changes nothing. */
  lemma EmptyUpdate(s: Store, id: nat)
    requires id in s.passes && s.passes[id].coords in s.coords
    ensures Update(s, id, UpdateData(None, None, None, None, None, None, None, None, None, None)) == s
  {
  }

  /** `images: []` is falsy: it leaves the photos exactly as omitting the key does. */
  lemma EmptyImagesIsAbsent(s: Store, id: nat, d: UpdateData)
    requires id in s.passes && s.passes[id].coords in s.coords
    ensures Update(s, id, d.(images := Some([]))) == Update(s, id, d.(images := None))
  {
  }

  /** A coordinates object without keys is falsy: it leaves the coordinates as omitting it does. */
  lemma EmptyCoordsIsAbsent(s: Store, id: nat, d: UpdateData)
    requires id in s.passes && s.passes[id].coords in s.coords
    ensures Update(s, id, d.(coords := Some(CoordsPatch(None, None, None)))) == Update(s, id, d.(coords := None))
  {
  }

  /** Merging fitting texts into a fitting pass gives a fitting pass. */
  lemma MergeTextFits(p: Pass, d: UpdateData)
    requires PassFits(p) && UpdateFits(d)
    ensures PassFits(MergeText(p, d))
  {
    var r := MergeText(p, d);
    forall t: TextField
      ensures FitsCap(r.Text(t), MaxLength(t))
    {
      assert r.Text(t) == d.Text(t).GetOr(p.Text(t));
    }
  }

  /** Rewriting a pass with the same submitter and coordinates keeps the store valid. */
  lemma SetPassValid(s: Store, id: nat, p: Pass)
    requires Valid(s) && id in s.passes && PassFits(p)
    requires p.user == s.passes[id].user && p.coords == s.passes[id].coords
    ensures Valid(s.(passes := s.passes[id := p]))
  {
    SetPassLinked(s, id, p);
    SetPassFits(s, id, p);
  }

  lemma SetPassLinked(s: Store, id: nat, p: Pass)
    requires Linked(s) && id in s.passes
    requires p.user == s.passes[id].user && p.coords == s.passes[id].coords
    ensures Linked(s.(passes := s.passes[id := p]))
  {
    LinkedSameLinks(s, s.(passes := s.passes[id := p]));
  }

  lemma SetPassFits(s: Store, id: nat, p: Pass)
    requires Fits(s) && id in s.passes && PassFits(p)
    ensures Fits(s.(passes := s.passes[id := p]))
  {
  }

  /** Rewriting a coordinates row in place with a fitting height keeps the store valid. */
  lemma SetCoordsValid(s: Store, c: nat, v: Coords)
    requires Valid(s) && c in s.coords && CoordsFits(v)
    ensures Valid(s.(coords := s.coords[c := v]))
  {
  }

  /** Deleting the photos of a pass keeps the store valid. */
  lemma DropImagesValid(s: Store, id: nat)
    requires Valid(s)
    ensures Valid(s.(images := DropImagesOf(s.images, id)))
  {
  }

  /** Replacing the photos of a stored pass by fitting ones keeps the store valid. */
  lemma ReplaceImagesValid(s: Store, id: nat, imgs: seq<ImageData>)
    requires Valid(s) && id in s.passes
    requires forall i :: 0 <= i < |imgs| ==> |imgs[i].title| <= IMAGE_TITLE_MAX_LENGTH && |imgs[i].imageUrl| <= URL_MAX_LENGTH
    ensures Valid(ReplaceImages(s, id, imgs))
  {
    var s3 := s.(images := DropImagesOf(s.images, id));
    DropImagesValid(s, id);
    var rows := AttachAll(id, imgs);
    assert forall i :: 0 <= i < |rows| ==> rows[i].pass in s3.passes && ImageFits(rows[i]);
    AppendImagesValid(s3, rows);
  }

  /** The texts and coordinates stages of an update keep the store valid. */
  lemma MergeStagesValid(s: Store, id: nat, d: UpdateData)
    requires Valid(s) && id in s.passes && UpdateFits(d)
    ensures s.passes[id].coords in s.coords
    ensures Valid(MergeStages(s, id, d))
  {
    var p := s.passes[id];
    MergeTextFits(p, d);
    SetPassValid(s, id, MergeText(p, d));
    var s1 := s.(passes := s.passes[id := MergeText(p, d)]);
    if MergesCoords(d) {
      SetCoordsValid(s1, p.coords, MergeCoords(s1.coords[p.coords], d.coords.value));
    }
  }

  /** An update whose texts fit the columns keeps the store valid. */
  lemma UpdateKeepsValid(s: Store, id: nat, d: UpdateData)
    requires Valid(s) && id in s.passes && UpdateFits(d)
    ensures s.passes[id].coords in s.coords
    ensures Valid(Update(s, id, d))
  {
    MergeStagesValid(s, id, d);
    if ReplacesImages(d) {
      ReplaceImagesValid(MergeStages(s, id, d), id, d.images.value);
    }
  }

  /** An update never touches the submitter table, so emails stay unique. */
  lemma UpdateKeepsEmailsUnique(s: Store, id: nat, d: UpdateData)
    requires UniqueEmails(s) && id in s.passes && s.passes[id].coords in s.coords
    ensures UniqueEmails(Update(s, id, d))
  {
    UpdatePass(s, id, d);
  }

  /** `is_valid()` followed by `save()` on the update serializer for the pass with id `id`. */
  function ApplyUpdate(sx: Syntax, s: Store, id: nat, raw: Payload, partial: bool): (r: Result<Store, set<Field>>)
    requires id in s.passes && s.passes[id].coords in s.coords
    ensures r.Success? <==> forall f :: !Fails(sx, UpdateForm(partial), raw, f)
    ensures r.Failure? ==> forall f :: f in r.error <==> Fails(sx, UpdateForm(partial), raw, f)
    ensures r.Success? ==> r.value == Update(s, id, ValidateUpdate(sx, raw, partial).value)
  {
    match ValidateUpdate(sx, raw, partial)
    case Failure(errs) => Failure(errs)
    case Success(d) => Success(Update(s, id, d))
  }

  /** An accepted update writes each sent text over the stored one and keeps submitter, status and creation time. */
  lemma ApplyUpdateTexts(sx: Syntax, s: Store, id: nat, raw: Payload, partial: bool)
    requires id in s.passes && s.passes[id].coords in s.coords
    requires ApplyUpdate(sx, s, id, raw, partial).Success?
    ensures var s' := ApplyUpdate(sx, s, id, raw, partial).value;
      && id in s'.passes
      && var p, p' := s.passes[id], s'.passes[id];
      && (forall t :: p'.Text(t) == raw.Text(t).GetOr(p.Text(t)))
      && p'.user == p.user && p'.status == p.status && p'.addTime == p.addTime
  {
    var d := ValidateUpdate(sx, raw, partial).value;
    UpdatePass(s, id, d);
  }

  /** An accepted update keeps a valid store valid. */
  lemma ApplyUpdateKeepsValid(sx: Syntax, s: Store, id: nat, raw: Payload, partial: bool)
    requires Valid(s) && id in s.passes
    ensures s.passes[id].coords in s.coords
    ensures var r := ApplyUpdate(sx, s, id, raw, partial);
      r.Success? ==> Valid(r.value)
  {
    assert Linked(s);
    if ValidateUpdate(sx, raw, partial).Success? {
      ValidatedUpdateFits(sx, raw, partial);
      UpdateKeepsValid(s, id, ValidateUpdate(sx, raw, partial).value);
    }
  }

  /**
   * Whatever the body says about `user`, `status`, `add_time` or `level`,
   * an update neither reads those keys nor changes the stored submitter,
   * status or creation time.
   */
  lemma UpdateProtectsFields(
    sx: Syntax, s: Store, id: nat, raw: Payload, partial: bool,
    user: Option<UserInput>, status: Option<string>, addTime: Option<string>, level: Option<LevelInput>)
    requires id in s.passes && s.passes[id].coords in s.coords
    ensures var r := ApplyUpdate(sx, s, id, raw, partial);
      && ApplyUpdate(sx, s, id, raw.(user := user, status := status, addTime := addTime, level := level), partial) == r
      && (r.Success? ==>
            && id in r.value.passes
            && r.value.passes[id].user == s.passes[id].user
            && r.value.passes[id].status == s.passes[id].status
            && r.value.passes[id].addTime == s.passes[id].addTime)
  {
    UpdateIgnoresUndeclared(sx, raw, partial, user, status, addTime, level);
    var v := ValidateUpdate(sx, raw, partial);
    if v.Success? {
      UpdatePass(s, id, v.value);
    }
  }
}
