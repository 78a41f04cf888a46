/**
  The per-file step of `prepareFilesList`: skip files whose type does not
  mention "image", resolve the target box from the selected option, fit the
  decoded image into it, and record the original and the fitted size. The
  reader and image callbacks are run synchronously, one file after another.
*/
module FileList {
  import opened Wrappers
  import Geometry
  import CustomSize
  import SizeStore

  /** A natural image size, as `img.width`/`img.height` report it once loaded. */
  datatype Bitmap = Bitmap(width: nat, height: nat)

  /**
    A dropped or browsed file: its name, byte size and MIME type, and the
    bitmap its data URL decodes to (`None` when the image never loads, so
    its `onload` never fires).
  */
  datatype FileItem = FileItem(name: string, size: nat, mimeType: string, decoded: Option<Bitmap>)

  /** `FileWithPreview`, without the preview data URL and its byte count. */
  datatype FileWithPreview = FileWithPreview(file: FileItem, width: nat, height: nat, widthNew: int, heightNew: int)

  /** The target box; a side is `None` when it is `null` in the selected option. */
  datatype Target = Target(width: Option<nat>, height: Option<nat>)

  /** The box used when the selection matches no option. */
  const DefaultSide: nat := 500

  predicate OccursAt(s: string, sub: string, i: int)
  {
    0 <= i && i + |sub| <= |s| && s[i..i + |sub|] == sub
  }

  /** `s.indexOf(sub, from)`: the first occurrence at or after `from`, or -1. */
  function IndexFrom(s: string, sub: string, from: nat): (r: int)
    requires from <= |s|
    ensures r == -1 || (from <= r && OccursAt(s, sub, r))
    ensures r == -1 ==> forall i :: from <= i ==> !OccursAt(s, sub, i)
    ensures r != -1 ==> forall i :: from <= i < r ==> !OccursAt(s, sub, i)
    decreases |s| - from
  {
    if from + |sub| > |s| then -1
    else if s[from..from + |sub|] == sub then from
    else IndexFrom(s, sub, from + 1)
  }

  /** `s.indexOf(sub)`: the position of the first occurrence, or -1. */
  function IndexOf(s: string, sub: string): (r: int)
    ensures r == -1 || (0 <= r && OccursAt(s, sub, r))
    ensures r != -1 ==> forall i :: 0 <= i < r ==> !OccursAt(s, sub, i)
  {
    IndexFrom(s, sub, 0)
  }

  /** `indexOf` finds nothing exactly when the text occurs nowhere, not only not at the start. */
  lemma IndexOfMissing(s: string, sub: string)
    ensures IndexOf(s, sub) == -1 <==> forall i :: 0 <= i ==> !OccursAt(s, sub, i)
  {
  }

  /** The filter `item.type.indexOf('image') === -1` that skips a file. */
  predicate IsImageType(mimeType: string)
  {
    IndexOf(mimeType, "image") != -1
  }

  /** The first position in `opts` at or after `from` whose id is `id`. */
  function FindId(opts: seq<SizeStore.SizeOption>, id: string, from: nat): (r: Option<nat>)
    requires from <= |opts|
    ensures r.Some? ==> from <= r.value < |opts| && opts[r.value].id == id
    ensures r.Some? ==> forall k :: from <= k < r.value ==> opts[k].id != id
    ensures r.None? ==> forall k :: from <= k < |opts| ==> opts[k].id != id
    decreases |opts| - from
  {
    if from == |opts| then None
    else if opts[from].id == id then Some(from)
    else FindId(opts, id, from + 1)
  }

  /**
    `sizeOptions.filter(a => a.id == this.selectedSize)` and its first
    element: the target of the first option with the selected id, or 500 by
    500 when none matches. An unset selection (`undefined`) matches no id.
  */
  function ResolveTarget(opts: seq<SizeStore.SizeOption>, selected: Option<string>): Target
  {
    var hit := if selected.Some? then FindId(opts, selected.value, 0) else None;
    if hit.Some? then Target(opts[hit.value].resizeWidth, opts[hit.value].resizeHeight)
    else Target(Some(DefaultSide), Some(DefaultSide))
  }

  /** The target sides are both set, between 1 and the largest custom side, or both `null`. */
  predicate UsableTarget(t: Target)
  {
    (t.width.Some? && t.height.Some? &&
     0 < t.width.value <= CustomSize.MaxSide && 0 < t.height.value <= CustomSize.MaxSide) ||
    (t.width.None? && t.height.None?)
  }

  /** Over a well-formed catalog every resolved target is usable. */
  lemma {:induction false} ResolveTargetUsable(opts: seq<SizeStore.SizeOption>, selected: Option<string>)
    requires SizeStore.WellFormed(opts)
    ensures UsableTarget(ResolveTarget(opts, selected))
  {
    var hit := if selected.Some? then FindId(opts, selected.value, 0) else None;
    if hit.Some? {
      var i := hit.value;
      if i < 3 {
        assert opts[i] == SizeStore.InitialOptions[i];
      }
    }
  }

  /**
    The box falls back to 500 by 500 exactly when no option has the selected
    id; otherwise it is the dimensions of the first option that has it, even
    when those are `null`.
  */
  lemma {:induction false} ResolveTargetFallback(opts: seq<SizeStore.SizeOption>, selected: Option<string>)
    ensures (selected.None? || forall k :: 0 <= k < |opts| ==> opts[k].id != selected.value) ==>
      ResolveTarget(opts, selected) == Target(Some(DefaultSide), Some(DefaultSide))
    ensures forall k :: 0 <= k < |opts| && selected == Some(opts[k].id) &&
                        (forall j :: 0 <= j < k ==> opts[j].id != opts[k].id) ==>
      ResolveTarget(opts, selected) == Target(opts[k].resizeWidth, opts[k].resizeHeight)
  {
    if selected.Some? {
      var hit := FindId(opts, selected.value, 0);
      if hit.Some? {
        forall k | 0 <= k < |opts| && selected == Some(opts[k].id) &&
                   (forall j :: 0 <= j < k ==> opts[j].id != opts[k].id)
          ensures k == hit.value
        {
        }
      }
    }
  }

  /**
    What `canvas.toDataURL(type)` returns, without the payload: `"data:,"`
    for a canvas without pixels, otherwise a base64 data URL of the
    requested type when the browser can encode it, and of PNG when it
    cannot. Which types a browser encodes is the parameter `encodable`.
  */
  datatype DataUrl = NoPixels | Encoded(mimeType: string)

  function ToDataUrl(canvasWidth: nat, canvasHeight: nat, encodable: set<string>, requested: string): (u: DataUrl)
    ensures u.NoPixels? <==> canvasWidth == 0 || canvasHeight == 0
    ensures u.Encoded? ==> (u.mimeType == requested <==> requested in encodable || requested == "image/png")
    ensures u.Encoded? ==> (u.mimeType == requested || u.mimeType == "image/png")
  {
    if canvasWidth == 0 || canvasHeight == 0 then NoPixels
    else if requested in encodable then Encoded(requested)
    else Encoded("image/png")
  }

  /** The data URL prefixes that `/^data:image\/(png|jpeg|jpg);base64,/` removes. */
  predicate StrippedType(mimeType: string)
  {
    mimeType == "image/png" || mimeType == "image/jpeg" || mimeType == "image/jpg"
  }

  /**
    `atob` of the data URL after the prefix is removed succeeds: only
    base64 is left. Any other data URL still starts with `data:`, and the
    colon is not a base64 character, so `atob` throws.
  */
  predicate Readable(u: DataUrl)
  {
    u.Encoded? && StrippedType(u.mimeType)
  }

  /** The canvas size `resizeImage` sets for a target box: a `null` side converts to 0. */
  function CanvasOf(b: Bitmap, t: Target): (nat, nat)
    requires UsableTarget(t)
  {
    if t.width.Some? then
      var r := Geometry.ResizeImage(b.width as real, b.height as real,
                                    t.width.value as real, t.height.value as real,
                                    false, Geometry.Transparent);
      (r.canvasWidth, r.canvasHeight)
    else (Geometry.CanvasSize(0.0, Geometry.DefaultCanvasWidth), Geometry.CanvasSize(0.0, Geometry.DefaultCanvasHeight))
  }

  /** The content size reported for one bitmap in a set box, after `Math.round`. */
  function Content(b: Bitmap, w: nat, h: nat): (int, int)
    requires w > 0 && h > 0
  {
    var r := Geometry.ResizeImage(b.width as real, b.height as real, w as real, h as real,
                                  false, Geometry.Transparent);
    (Geometry.JsRound(r.dimensions.w), Geometry.JsRound(r.dimensions.h))
  }

  /**
    What handling one file appends to `files`, if anything. The record is
    built only when `atob` accepts the preview; when it throws, inside the
    object literal, `push` is never reached.
  */
  function FileStep(opts: seq<SizeStore.SizeOption>, selected: Option<string>, encodable: set<string>,
                    item: FileItem): Option<FileWithPreview>
    requires SizeStore.WellFormed(opts)
  {
    if !IsImageType(item.mimeType) then None
    else match item.decoded
      case None => None
      case Some(b) =>
        var t := ResolveTarget(opts, selected);
        ResolveTargetUsable(opts, selected);
        var (canvasWidth, canvasHeight) := CanvasOf(b, t);
        if !Readable(ToDataUrl(canvasWidth, canvasHeight, encodable, item.mimeType)) then None
        else
          var (widthNew, heightNew) := Content(b, t.width.value, t.height.value);
          Some(FileWithPreview(item, b.width, b.height, widthNew, heightNew))
  }

  /** The records `prepareFilesList(items)` appends, in the order the items are given. */
  function Processed(opts: seq<SizeStore.SizeOption>, selected: Option<string>, encodable: set<string>,
                     items: seq<FileItem>)
    : (r: seq<FileWithPreview>)
    requires SizeStore.WellFormed(opts)
    ensures |r| <= |items|
    ensures forall k :: 0 <= k < |r| ==> r[k].file in items && IsImageType(r[k].file.mimeType)
    decreases |items|
  {
    if items == [] then []
    else
      var init := Processed(opts, selected, encodable, items[..|items| - 1]);
      assert forall k :: 0 <= k < |init| ==> init[k].file in items by {
        forall k | 0 <= k < |init| ensures init[k].file in items {
          var j :| 0 <= j < |items| - 1 && items[..|items| - 1][j] == init[k].file;
          assert items[j] == init[k].file;
        }
      }
      match FileStep(opts, selected, encodable, items[|items| - 1])
      case Some(f) => init + [f]
      case None => init
  }

  // ---------------------------------------------------------------------------
  // Properties of the file step

  /**
    A set box of a well-formed catalog gives a canvas of that many pixels,
    so its data URL has pixels; a `null` box gives a canvas without pixels.
  */
  lemma {:induction false} CanvasOfTarget(b: Bitmap, t: Target)
    requires UsableTarget(t)
    ensures t.width.Some? ==> CanvasOf(b, t) == (t.width.value, t.height.value)
    ensures t.width.None? ==> CanvasOf(b, t) == (0, 0)
  {
    if t.width.Some? {
      var tw, th := t.width.value as real, t.height.value as real;
      Geometry.ResizeImageLetterboxes(b.width as real, b.height as real, tw, th, Geometry.Transparent);
      Geometry.CanvasSizeOfWhole(t.width.value, Geometry.DefaultCanvasWidth);
      Geometry.CanvasSizeOfWhole(t.height.value, Geometry.DefaultCanvasHeight);
    }
  }

  /**
    A file is recorded exactly when its type contains "image" anywhere, it
    decodes, the selected box is set, and the browser either encodes its
    type as PNG or JPEG or falls back to PNG for it. The record carries the
    file, its natural size unchanged, and the fitted size in the box.
  */
  lemma {:induction false} FileStepRecords(opts: seq<SizeStore.SizeOption>, selected: Option<string>,
                                           encodable: set<string>, item: FileItem)
    requires SizeStore.WellFormed(opts)
    ensures var r := FileStep(opts, selected, encodable, item);
      var t := ResolveTarget(opts, selected);
      (r.Some? <==> (exists i :: 0 <= i && OccursAt(item.mimeType, "image", i)) && item.decoded.Some? &&
                    t.width.Some? && (StrippedType(item.mimeType) || item.mimeType !in encodable)) &&
      (r.Some? ==> r.value.file == item &&
                   r.value.width == item.decoded.value.width &&
                   r.value.height == item.decoded.value.height &&
                   t.width.Some? && t.height.Some? && t.width.value > 0 && t.height.value > 0 &&
                   (r.value.widthNew, r.value.heightNew) ==
                     Content(item.decoded.value, t.width.value, t.height.value))
  {
    IndexOfMissing(item.mimeType, "image");
    ResolveTargetUsable(opts, selected);
    if item.decoded.Some? {
      CanvasOfTarget(item.decoded.value, ResolveTarget(opts, selected));
    }
  }

  /** The type test is a substring test: "image" need not start the type. */
  lemma IsImageTypeExamples()
    ensures IsImageType("image/png")
    ensures IsImageType("application/x-image")
    ensures !IsImageType("text/plain")
  {
    assert "image/png"[0..5] == "image";
    assert OccursAt("image/png", "image", 0);
    var s := "application/x-image";
    assert s[14..19] == "image";
    assert OccursAt(s, "image", 14);
    var t := "text/plain";
    forall i | 0 <= i ensures !OccursAt(t, "image", i) {
      if i + 5 <= |t| {
        assert t[i..i + 5][0] == t[i] != 'i';
      }
    }
    IndexOfMissing(t, "image");
  }

  /**
    With a set box the recorded size lies inside the box, and equals the
    natural size when the image already fits.
  */
  lemma {:induction false} ContentFitsBox(b: Bitmap, w: nat, h: nat)
    requires w > 0 && h > 0
    ensures var (widthNew, heightNew) := Content(b, w, h);
      0 <= widthNew <= w && 0 <= heightNew <= h &&
      (b.width <= w && b.height <= h ==> widthNew == b.width && heightNew == b.height)
  {
    var iw, ih, tw, th := b.width as real, b.height as real, w as real, h as real;
    Geometry.ResizeImageDrawsFittedContent(iw, ih, tw, th, false, Geometry.Transparent);
    Geometry.ResizeFitsBox(iw, ih, tw, th);
    Geometry.ResizeKeepsFittingImage(iw, ih, tw, th);
    var d := Geometry.ResizeImage(iw, ih, tw, th, false, Geometry.Transparent).dimensions;
    Geometry.JsRoundBelow(d.w, w);
    Geometry.JsRoundBelow(d.h, h);
    if b.width <= w && b.height <= h {
      Geometry.JsRoundBelow(d.w, b.width);
      Geometry.JsRoundBelow(d.h, b.height);
    }
  }

  /**
    Selecting the custom option before any size was accepted records no
    file at all: the canvas has no pixels, its data URL is `"data:,"` and
    `atob` throws before the record is pushed. The 500 by 500 default
    applies only when no option matches.
  */
  lemma UnsetCustomRecordsNothing(encodable: set<string>, item: FileItem)
    ensures FileStep(SizeStore.InitialOptions, Some("4"), encodable, item).None?
  {
    var opts := SizeStore.InitialOptions;
    assert opts[0].id == "1" && opts[1].id == "2" && opts[2].id == "3" && opts[3].id == "4";
    assert FindId(opts, "4", 3) == Some(3);
    assert FindId(opts, "4", 0) == Some(3);
    FileStepRecords(opts, Some("4"), encodable, item);
  }

  /**
    A WebP file in a browser that encodes WebP gets a `data:image/webp`
    preview, which the prefix pattern leaves in place, so it is never
    recorded; a PNG or JPEG file is recorded whatever the browser encodes.
  */
  lemma {:induction false} EncodedTypeDecides(opts: seq<SizeStore.SizeOption>, selected: Option<string>,
                                              encodable: set<string>, item: FileItem)
    requires SizeStore.WellFormed(opts)
    ensures item.mimeType == "image/webp" && "image/webp" in encodable ==>
      FileStep(opts, selected, encodable, item).None?
    ensures (item.mimeType == "image/png" || item.mimeType == "image/jpeg") &&
            item.decoded.Some? && ResolveTarget(opts, selected).width.Some? ==>
      FileStep(opts, selected, encodable, item).Some?
  {
    FileStepRecords(opts, selected, encodable, item);
    if item.mimeType == "image/png" || item.mimeType == "image/jpeg" {
      assert OccursAt(item.mimeType, "image", 0);
    }
  }

  /** An unknown or unset selection resizes into the 500 by 500 default box. */
  lemma {:induction false} UnknownSelectionUsesDefault(opts: seq<SizeStore.SizeOption>, selected: Option<string>,
                                                       encodable: set<string>, item: FileItem)
    requires SizeStore.WellFormed(opts)
    requires selected.None? || forall k :: 0 <= k < |opts| ==> opts[k].id != selected.value
    ensures var r := FileStep(opts, selected, encodable, item);
      r.Some? ==> 0 <= r.value.widthNew <= DefaultSide && 0 <= r.value.heightNew <= DefaultSide
  {
    ResolveTargetFallback(opts, selected);
    FileStepRecords(opts, selected, encodable, item);
    if item.decoded.Some? {
      ContentFitsBox(item.decoded.value, DefaultSide, DefaultSide);
    }
  }
}
