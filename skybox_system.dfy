/**
  The skybox system (packages/engine/src/client/systems/setSkybox.ts). For every skybox, and
  every image entity, the image whose entity is the skybox's image gets the uri stored in the
  client store, unless it already has it; it is then flipped vertically and its MIME type is
  derived from the uri's file extension.

  Query results are sequences: `skyboxes` holds the skybox components, `images` one row per
  image entity with its entity id and its asset and image components, which the system
  changes in place. The stored uri is read once, as `skyboxUri`: nothing changes it while the
  system runs.
*/
module SkyboxSystem {

  class Asset {
    var uri: string
    var mimeType: string

    constructor (uri: string, mimeType: string)
      ensures this.uri == uri && this.mimeType == mimeType
    {
      this.uri := uri;
      this.mimeType := mimeType;
    }
  }

  class Image {
    var flipY: bool

    constructor (flipY: bool)
      ensures this.flipY == flipY
    {
      this.flipY := flipY;
    }
  }

  datatype Skybox = Skybox(imageId: nat)

  datatype ImageRow = ImageRow(entity: nat, asset: Asset, image: Image)

  const JpegMimeType: string := "image/jpeg"

  /** `uri.split(".").pop()`: the text after the last ".", or all of `uri` without one. */
  function Extension(uri: string): string
  {
    if uri == [] || uri[|uri| - 1] == '.' then []
    else Extension(uri[..|uri| - 1]) + [uri[|uri| - 1]]
  }

  /** `ext` is what follows the last "." of `uri`: a suffix without ".", which is either all of
      `uri` or preceded by ".". */
  predicate LastPart(uri: string, ext: string)
  {
    && |ext| <= |uri|
    && (forall i :: 0 <= i < |ext| ==> ext[i] == uri[|uri| - |ext| + i] && ext[i] != '.')
    && (|ext| < |uri| ==> uri[|uri| - |ext| - 1] == '.')
  }

  lemma {:induction false} ExtensionIsLastPart(uri: string)
    ensures LastPart(uri, Extension(uri))
  {
    if uri == [] || uri[|uri| - 1] == '.' {
      assert Extension(uri) == [];
    } else {
      var init, c := uri[..|uri| - 1], uri[|uri| - 1];
      ExtensionIsLastPart(init);
      var e := Extension(init);
      var r := e + [c];
      assert Extension(uri) == r;
      forall i | 0 <= i < |r|
        ensures r[i] == uri[|uri| - |r| + i] && r[i] != '.'
      {
        if i < |e| {
          assert r[i] == e[i] == init[|init| - |e| + i];
        }
      }
      if |r| < |uri| {
        assert uri[|uri| - |r| - 1] == init[|init| - |e| - 1];
      }
    }
  }

  /** The characters of a last part are those of the end of `uri`, none of them a ".". */
  lemma DotFreeTail(uri: string, ext: string)
    requires LastPart(uri, ext)
    ensures forall j :: |uri| - |ext| <= j < |uri| ==> uri[j] != '.'
  {
    forall j | |uri| - |ext| <= j < |uri|
      ensures uri[j] != '.'
    {
      assert ext[j - (|uri| - |ext|)] == uri[j];
    }
  }

  /** There is only one last part. */
  lemma LastPartUnique(uri: string, e1: string, e2: string)
    requires LastPart(uri, e1) && LastPart(uri, e2)
    ensures e1 == e2
  {
    DotFreeTail(uri, e1);
    DotFreeTail(uri, e2);
    assert |e1| == |e2|;
    assert forall i :: 0 <= i < |e1| ==> e1[i] == e2[i];
  }

  /** `dotted` is "." followed by `ext`. */
  predicate Dotted(ext: string, dotted: string)
  {
    |dotted| == |ext| + 1 && dotted[0] == '.' && forall i :: 0 <= i < |ext| ==> dotted[i + 1] == ext[i]
  }

  /** A dot-free `ext` is the last part of `uri` exactly when `uri` is `ext` or ends in "."
      followed by `ext`. */
  lemma LastPartIs(uri: string, ext: string, dotted: string)
    requires forall i :: 0 <= i < |ext| ==> ext[i] != '.'
    requires Dotted(ext, dotted)
    ensures LastPart(uri, ext) <==>
            uri == ext || (|uri| >= |dotted| && uri[|uri| - |dotted|..] == dotted)
  {
    if |uri| >= |dotted| {
      var tail := uri[|uri| - |dotted|..];
      if tail == dotted {
        forall i | 0 <= i < |ext| ensures ext[i] == uri[|uri| - |ext| + i] {
          assert ext[i] == dotted[i + 1] == tail[i + 1];
        }
        assert uri[|uri| - |ext| - 1] == tail[0];
      }
      if LastPart(uri, ext) {
        forall i | 0 <= i < |dotted| ensures tail[i] == dotted[i] {
          if i > 0 {
            assert dotted[i] == ext[i - 1];
          }
        }
      }
    } else if |uri| == |ext| && LastPart(uri, ext) {
      assert uri == ext;
    }
  }

  /** The extension of `uri` is the dot-free `ext` exactly when `uri` is `ext` or ends in "."
      followed by `ext`. */
  lemma ExtensionIs(uri: string, ext: string, dotted: string)
    requires forall i :: 0 <= i < |ext| ==> ext[i] != '.'
    requires Dotted(ext, dotted)
    ensures Extension(uri) == ext <==>
            uri == ext || (|uri| >= |dotted| && uri[|uri| - |dotted|..] == dotted)
  {
    var e := Extension(uri);
    ExtensionIsLastPart(uri);
    LastPartIs(uri, ext, dotted);
    if LastPart(uri, ext) {
      LastPartUnique(uri, e, ext);
    }
  }

  /** The MIME type the system records for `uri`. */
  function MimeType(uri: string): string
  {
    var ext := Extension(uri);
    if ext == "jpg" || ext == "jpeg" then JpegMimeType else ""
  }

  /** A uri whose last "."-separated part is "jpg" or "jpeg". */
  predicate JpegName(uri: string)
  {
    || uri == "jpg" || uri == "jpeg"
    || (|uri| >= 4 && uri[|uri| - 4..] == ".jpg")
    || (|uri| >= 5 && uri[|uri| - 5..] == ".jpeg")
  }

  lemma JpgWords()
    ensures (forall i :: 0 <= i < |"jpg"| ==> "jpg"[i] != '.') && Dotted("jpg", ".jpg")
  {
  }

  lemma JpgExtension(uri: string)
    ensures Extension(uri) == "jpg" <==> uri == "jpg" || (|uri| >= 4 && uri[|uri| - 4..] == ".jpg")
  {
    JpgWords();
    ExtensionIs(uri, "jpg", ".jpg");
  }

  lemma JpegWords()
    ensures (forall i :: 0 <= i < |"jpeg"| ==> "jpeg"[i] != '.') && Dotted("jpeg", ".jpeg")
  {
  }

  lemma JpegExtension(uri: string)
    ensures Extension(uri) == "jpeg" <==> uri == "jpeg" || (|uri| >= 5 && uri[|uri| - 5..] == ".jpeg")
  {
    JpegWords();
    ExtensionIs(uri, "jpeg", ".jpeg");
  }

  /** "image/jpeg" exactly for the jpeg names, "" for every other uri. */
  lemma MimeTypeOfName(uri: string)
    ensures MimeType(uri) == JpegMimeType <==> JpegName(uri)
    ensures !JpegName(uri) ==> MimeType(uri) == ""
  {
    JpgExtension(uri);
    JpegExtension(uri);
    assert JpegMimeType != "";
  }

  /** What the system looks at and changes in one row. */
  datatype ImageState = ImageState(uri: string, mimeType: string, flipY: bool)

  function State(row: ImageRow): ImageState
    reads row.asset, row.image
  {
    ImageState(row.asset.uri, row.asset.mimeType, row.image.flipY)
  }

  /** One matching skybox's effect on an image: nothing when the uri is already the stored
      one, otherwise the stored uri, flipped, with the uri's MIME type. */
  function Shown(s: ImageState, skyboxUri: string): (r: ImageState)
    ensures r.uri == skyboxUri
    ensures s.uri == skyboxUri ==> r == s
    ensures s.uri != skyboxUri ==> r.flipY && r.mimeType == MimeType(skyboxUri)
  {
    if s.uri == skyboxUri then s else ImageState(skyboxUri, MimeType(skyboxUri), true)
  }

  /** Some skybox shows the image of entity `entity`. */
  predicate Matched(skyboxes: seq<Skybox>, entity: nat)
  {
    exists j :: 0 <= j < |skyboxes| && skyboxes[j].imageId == entity
  }

  /** An image after the system: shown when some skybox names it, untouched otherwise. */
  function After(skyboxes: seq<Skybox>, entity: nat, s: ImageState, skyboxUri: string): ImageState
  {
    if Matched(skyboxes, entity) then Shown(s, skyboxUri) else s
  }

  /** Running the system a second time with the same stored uri changes nothing. */
  lemma AfterIdempotent(skyboxes: seq<Skybox>, entity: nat, s: ImageState, skyboxUri: string)
    ensures After(skyboxes, entity, After(skyboxes, entity, s, skyboxUri), skyboxUri)
            == After(skyboxes, entity, s, skyboxUri)
  {
  }

  /** What one skybox naming `imageId` does to the image of entity `entity`. */
  function Step(imageId: nat, entity: nat, s: ImageState, skyboxUri: string): ImageState
  {
    if imageId == entity then Shown(s, skyboxUri) else s
  }

  /** One more skybox: the image is shown once more if that skybox names it. */
  lemma AfterOneMore(skyboxes: seq<Skybox>, j: nat, entity: nat, s: ImageState, skyboxUri: string)
    requires j < |skyboxes|
    ensures After(skyboxes[..j + 1], entity, s, skyboxUri) ==
            Step(skyboxes[j].imageId, entity, After(skyboxes[..j], entity, s, skyboxUri), skyboxUri)
  {
    var before, now := skyboxes[..j], skyboxes[..j + 1];
    if Matched(before, entity) {
      var t :| 0 <= t < |before| && before[t].imageId == entity;
      assert now[t] == before[t];
    }
    if Matched(now, entity) && skyboxes[j].imageId != entity {
      var t :| 0 <= t < |now| && now[t].imageId == entity;
      assert before[t] == now[t];
    }
    if skyboxes[j].imageId == entity {
      assert now[j] == skyboxes[j];
    }
  }

  /** Each row has its own components (the query yields each entity once). */
  predicate Separate(images: seq<ImageRow>)
  {
    forall a, b :: 0 <= a < b < |images| ==> images[a].asset != images[b].asset && images[a].image != images[b].image
  }

  function Assets(images: seq<ImageRow>): set<Asset>
  {
    set i | 0 <= i < |images| :: images[i].asset
  }

  function Images(images: seq<ImageRow>): set<Image>
  {
    set i | 0 <= i < |images| :: images[i].image
  }

  /** The inner loop body: the row is shown when the skybox names it. */
  method ShowRow(row: ImageRow, named: bool, skyboxUri: string)
    modifies row.asset, row.image
    ensures State(row) == if named then Shown(old(State(row)), skyboxUri) else old(State(row))
  {
    if !named || row.asset.uri == skyboxUri {
      return;
    }
    row.asset.uri := skyboxUri;
    row.image.flipY := true;
    row.asset.mimeType := MimeType(row.asset.uri);
  }

  /** The inner loop: one skybox, naming `imageId`, over every image row. */
  method ShowNamed(imageId: nat, images: seq<ImageRow>, skyboxUri: string)
    requires Separate(images)
    modifies Assets(images), Images(images)
    ensures forall i :: 0 <= i < |images| ==>
              State(images[i]) == Step(imageId, images[i].entity, old(State(images[i])), skyboxUri)
  {
    for k := 0 to |images|
      invariant forall i :: 0 <= i < k ==>
                  State(images[i]) == Step(imageId, images[i].entity, old(State(images[i])), skyboxUri)
      invariant forall i :: k <= i < |images| ==> State(images[i]) == old(State(images[i]))
    {
      ShowRow(images[k], imageId == images[k].entity, skyboxUri);
    }
  }

  /** `setSkybox`: every image ends as `After` says, from the state it started in. */
  method SetSkybox(skyboxes: seq<Skybox>, images: seq<ImageRow>, skyboxUri: string)
    requires Separate(images)
    modifies Assets(images), Images(images)
    ensures forall i :: 0 <= i < |images| ==>
              State(images[i]) == After(skyboxes, images[i].entity, old(State(images[i])), skyboxUri)
  {
    for j := 0 to |skyboxes|
      invariant forall i :: 0 <= i < |images| ==>
                  State(images[i]) == After(skyboxes[..j], images[i].entity, old(State(images[i])), skyboxUri)
    {
      label before:
      ShowNamed(skyboxes[j].imageId, images, skyboxUri);
      forall i | 0 <= i < |images|
        ensures State(images[i]) == After(skyboxes[..j + 1], images[i].entity, old(State(images[i])), skyboxUri)
      {
        AfterOneMore(skyboxes, j, images[i].entity, old(State(images[i])), skyboxUri);
      }
    }
    assert skyboxes[..|skyboxes|] == skyboxes;
  }
}
