/**
 * The loader-type lookup of the photo manager's image factory: a static table
 * from lower-case file extensions and MIME types to the class that can read
 * the file, the raw/JPEG extension tests, and the factory fallback.
 *
 * `SafeUri.GetExtension` is not part of this model: every operation takes the
 * extension string it would return. The GIO content-type probe that the
 * lookup consults when the extension is unknown is an input (`probe`):
 * `None` when the file does not exist, `Some(contentType)` when it does.
 */
module ImageFile {
  import opened Wrappers

  /** The classes the table can name (the `Type` values stored in it). */
  datatype LoaderType =
    | SvgFile | PlainImageFile | TagLibFile | Cr2File | NefFile | DCRawFile
    | TiffFile | DngFile | CiffFile | PnmFile | MrwFile | RafFile | X3fFile

  /**
   * The entries the static constructor always installs, as the table holds
   * them once it has run, in the constructor's order: the extensions first,
   * then the MIME types for the content-type fallback, each holding the value
   * of the entry it was copied from. `None` means the key has no entry.
   */
  function StaticTable(key: string): Option<LoaderType> {
    match key
    case ".svg" => Some(SvgFile)
    case ".gif" => Some(PlainImageFile)
    case ".bmp" => Some(PlainImageFile)
    case ".pcx" => Some(PlainImageFile)
    case ".jpeg" => Some(TagLibFile)
    case ".jpg" => Some(TagLibFile)
    case ".png" => Some(TagLibFile)
    case ".cr2" => Some(Cr2File)
    case ".nef" => Some(NefFile)
    case ".pef" => Some(NefFile)
    case ".raw" => Some(NefFile)
    case ".kdc" => Some(NefFile)
    case ".arw" => Some(NefFile)
    case ".rw2" => Some(DCRawFile)
    case ".tiff" => Some(TiffFile)
    case ".tif" => Some(TiffFile)
    case ".orf" => Some(NefFile)
    case ".srf" => Some(NefFile)
    case ".dng" => Some(DngFile)
    case ".crw" => Some(CiffFile)
    case ".ppm" => Some(PnmFile)
    case ".mrw" => Some(MrwFile)
    case ".raf" => Some(RafFile)
    case ".x3f" => Some(X3fFile)
    case "image/x-bmp" => Some(PlainImageFile)
    case "image/bmp" => Some(PlainImageFile)
    case "image/gif" => Some(PlainImageFile)
    case "image/jpg" => Some(TagLibFile)
    case "image/jpeg" => Some(TagLibFile)
    case "image/pjpeg" => Some(TagLibFile)
    case "image/png" => Some(TagLibFile)
    case "image/x-png" => Some(TagLibFile)
    case "image/svg+xml" => Some(SvgFile)
    case "image/tiff" => Some(TiffFile)
    case "image/x-dcraw" => Some(NefFile)
    case "image/x-ciff" => Some(CiffFile)
    case "image/x-mrw" => Some(MrwFile)
    case "image/x-x3f" => Some(X3fFile)
    case "image/x-orf" => Some(NefFile)
    case "image/x-nef" => Some(NefFile)
    case "image/x-cr2" => Some(Cr2File)
    case "image/x-raf" => Some(RafFile)
    case _ => None
  }

  /**
   * The extension whose entry each fallback MIME type copies, following the
   * constructor's chained assignments (`image/bmp` copies `image/x-bmp`, which
   * copies `.bmp`); `None` for any other key.
   */
  function AliasOf(mime: string): Option<string> {
    match mime
    case "image/x-bmp" => Some(".bmp")
    case "image/bmp" => Some(".bmp")
    case "image/gif" => Some(".gif")
    case "image/jpg" => Some(".jpg")
    case "image/jpeg" => Some(".jpg")
    case "image/pjpeg" => Some(".jpg")
    case "image/png" => Some(".png")
    case "image/x-png" => Some(".png")
    case "image/svg+xml" => Some(".svg")
    case "image/tiff" => Some(".tiff")
    case "image/x-dcraw" => Some(".raw")
    case "image/x-ciff" => Some(".crw")
    case "image/x-mrw" => Some(".mrw")
    case "image/x-x3f" => Some(".x3f")
    case "image/x-orf" => Some(".orf")
    case "image/x-nef" => Some(".nef")
    case "image/x-cr2" => Some(".cr2")
    case "image/x-raf" => Some(".raf")
    case _ => None
  }

  /**
   * The whole table after the static constructor: the static entries, plus
   * `.xcf` read by the plain class when the toolkit has an xcf loader.
   */
  function NameTable(xcf: bool, key: string): (r: Option<LoaderType>)
    ensures key != ".xcf" ==> r == StaticTable(key)
    ensures key == ".xcf" ==> r == (if xcf then Some(PlainImageFile) else None)
  {
    if xcf && key == ".xcf" then Some(PlainImageFile) else StaticTable(key)
  }

  /** The extensions `IsRaw` scans, in the source's order. */
  const RawExtensions: seq<string> :=
    [".arw", ".crw", ".cr2", ".dng", ".mrw", ".nef", ".orf", ".pef", ".raw", ".raf", ".rw2"]

  /** The extensions `IsJpeg` scans. */
  const JpegExtensions: seq<string> := [".jpg", ".jpeg"]

  /** A pixbuf loader format as the toolkit reports it at start-up. */
  datatype PixbufFormat = PixbufFormat(name: string, disabled: bool)

  /**
   * The last step of the static constructor: scan the toolkit's loader
   * formats and enable `.xcf` when one of them is named "xcf".
   */
  method DetectXcf(formats: seq<PixbufFormat>) returns (xcf: bool)
    ensures xcf <==> exists k :: 0 <= k < |formats| && formats[k].name == "xcf"
  {
    xcf := false;
    var k := 0;
    while k < |formats|
      invariant 0 <= k <= |formats|
      invariant xcf <==> exists j :: 0 <= j < k && formats[j].name == "xcf"
    {
      if formats[k].name == "xcf" {
        xcf := true;
      }
      k := k + 1;
    }
  }

  /** ASCII lower-casing of one character. */
  function LowerChar(c: char): char {
    if 'A' <= c <= 'Z' then (c as int + 32) as char else c
  }

  /** `String.ToLower` on the ASCII range: every character lowered, nothing else changed. */
  function ToLower(s: string): (r: string)
    ensures |r| == |s|
    ensures forall i :: 0 <= i < |s| ==> r[i] == LowerChar(s[i])
  {
    if s == [] then [] else [LowerChar(s[0])] + ToLower(s[1..])
  }

  /** Lower-casing twice is lower-casing once, so a lowered extension is its own key. */
  lemma {:induction false} ToLowerIdempotent(s: string)
    ensures ToLower(ToLower(s)) == ToLower(s)
  {
    if s != [] {
      ToLowerIdempotent(s[1..]);
      assert ToLower(s)[1..] == ToLower(s[1..]);
    }
  }

  /**
   * The loader class for a file: the extension is lowered, `.thm` video
   * thumbnails are refused, the table is consulted, and only when it has no
   * entry is the file's content type looked up instead.
   */
  function GetLoaderType(xcf: bool, extension: string, probe: Option<string>): (r: Option<LoaderType>)
    ensures ToLower(extension) == ".thm" ==> r == None
    ensures ToLower(extension) != ".thm" && NameTable(xcf, ToLower(extension)).Some? ==>
              r == NameTable(xcf, ToLower(extension))
    ensures r.Some? && NameTable(xcf, ToLower(extension)).None? ==>
              probe.Some? && r == NameTable(xcf, probe.value)
    ensures ToLower(extension) != ".thm" && NameTable(xcf, ToLower(extension)).None? && probe.Some? ==>
              r == NameTable(xcf, probe.value)
    ensures probe.None? && r.Some? ==> ToLower(extension) != ".thm" && r == NameTable(xcf, ToLower(extension))
  {
    var ext := ToLower(extension);
    if ext == ".thm" then None
    else match NameTable(xcf, ext)
      case Some(t) => Some(t)
      case None =>
        match probe
        case Some(contentType) => NameTable(xcf, contentType)
        case None => None
  }

  /** A file has a loader exactly when the lookup names a class. */
  function HasLoader(xcf: bool, extension: string, probe: Option<string>): (r: bool)
    ensures r <==> GetLoaderType(xcf, extension, probe).Some?
  {
    GetLoaderType(xcf, extension, probe) != None
  }

  /** Raw camera formats: exactly eleven extensions, compared after lower-casing. */
  function IsRaw(extension: string): (r: bool)
    ensures r <==> (ToLower(extension) in
      {".arw", ".crw", ".cr2", ".dng", ".mrw", ".nef", ".orf", ".pef", ".raw", ".raf", ".rw2"})
  {
    ToLower(extension) in RawExtensions
  }

  /** JPEG files: `.jpg` and `.jpeg`, compared after lower-casing. */
  function IsJpeg(extension: string): (r: bool)
    ensures r <==> (ToLower(extension) == ".jpg" || ToLower(extension) == ".jpeg")
  {
    ToLower(extension) in JpegExtensions
  }

  /** An image file object: its location and the class that was instantiated for it. */
  datatype ImageFileObject = ImageFileObject(uri: string, kind: LoaderType)

  /** The factory: the class the lookup names, or a plain `ImageFile` when it names none. */
  function Create(xcf: bool, uri: string, extension: string, probe: Option<string>): (r: ImageFileObject)
    ensures r.uri == uri
    ensures GetLoaderType(xcf, extension, probe) == None ==> r.kind == PlainImageFile
    ensures GetLoaderType(xcf, extension, probe).Some? ==> r.kind == GetLoaderType(xcf, extension, probe).value
  {
    match GetLoaderType(xcf, extension, probe)
    case Some(k) => ImageFileObject(uri, k)
    case None => ImageFileObject(uri, PlainImageFile)
  }

  /** A .NET pixel buffer object, only as an identity: the pixels are not modelled. */
  datatype PixbufHandle = PixbufHandle(id: nat)

  /**
   * Orientation fix-up of a freshly loaded pixbuf; `oriented` is what the
   * pixel-transform library returns for `orig`.
   */
  function TransformAndDispose(orig: Option<PixbufHandle>, oriented: PixbufHandle): (r: Option<PixbufHandle>)
    ensures r == None <==> orig == None
    ensures orig.Some? ==> r == Some(oriented)
  {
    if orig == None then None else Some(oriented)
  }

  // ---------------------------------------------------------------- properties

  /** `.thm` in any letter case never has a loader, whatever the file's content type. */
  lemma ThumbnailExtensionRefused(xcf: bool, extension: string, probe: Option<string>)
    requires |extension| == 4 && extension[0] == '.'
    requires extension[1] in "tT" && extension[2] in "hH" && extension[3] in "mM"
    ensures !HasLoader(xcf, extension, probe)
  {
    assert ToLower(extension) == ".thm";
  }

  /** Extensions that differ only in letter case get the same loader and the same raw/JPEG answer. */
  lemma {:induction false} LookupIsCaseInsensitive(xcf: bool, a: string, probe: Option<string>)
    ensures GetLoaderType(xcf, ToLower(a), probe) == GetLoaderType(xcf, a, probe)
    ensures IsRaw(ToLower(a)) == IsRaw(a)
    ensures IsJpeg(ToLower(a)) == IsJpeg(a)
  {
    ToLowerIdempotent(a);
  }

  /** Every raw extension has a table entry, so it has a loader without the content-type fallback. */
  lemma RawHasLoader(xcf: bool, extension: string)
    requires IsRaw(extension)
    ensures HasLoader(xcf, extension, None)
    ensures GetLoaderType(xcf, extension, None) == StaticTable(ToLower(extension))
  {
    var e := ToLower(extension);
    assert e in RawExtensions;
    var k :| 0 <= k < |RawExtensions| && RawExtensions[k] == e;
    assert StaticTable(e).Some? && e != ".thm" && e != ".xcf";
  }

  /** Both JPEG extensions, in any letter case, are read by the metadata-aware loader. */
  lemma JpegUsesTagLib(xcf: bool, extension: string, probe: Option<string>)
    requires IsJpeg(extension)
    ensures GetLoaderType(xcf, extension, probe) == Some(TagLibFile)
  {
  }

  /** Every fallback MIME type yields the same loader as the extension whose entry it copies. */
  lemma MimeAliasMatchesExtension(xcf: bool, mime: string)
    requires AliasOf(mime).Some?
    ensures NameTable(xcf, mime).Some?
    ensures NameTable(xcf, mime) == NameTable(xcf, AliasOf(mime).value)
  {
  }

  /**
   * For an extension the table does not know, the JPEG MIME types all resolve,
   * through the content-type fallback, to the `.jpg` loader.
   */
  lemma JpegMimeTypesResolveToJpg(xcf: bool, extension: string, mime: string)
    requires NameTable(xcf, ToLower(extension)).None? && ToLower(extension) != ".thm"
    requires mime in {"image/pjpeg", "image/jpeg", "image/jpg"}
    ensures GetLoaderType(xcf, extension, Some(mime)) == NameTable(xcf, ".jpg") == Some(TagLibFile)
  {
  }
}
