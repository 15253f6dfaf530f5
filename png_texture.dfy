/**
 * Loading a PNG texture: the file name is resolved against the assets
 * folder unless it is already absolute, the PNG library is initialised on
 * the first load only, and the image's bytes per pixel choose the
 * texture's format.
 *
 * The file system and the PNG decoder are a parameter `open` from a full
 * path to the decoded image's header; the graphics library calls are left
 * out, except for the formats they are given.
 */
module PngTexture {
  import opened Wrappers

  // ---------------------------------------------------------------------
  // Path resolution

  /** A C string's characters before its terminating NUL. */
  predicate IsCString(s: string)
  {
    '\0' !in s
  }

  /** Drive-letter paths (`C:...`) and paths from the root are used as they are. */
  predicate IsAbsolute(path: string)
    requires |path| >= 1
  {
    (|path| >= 2 && path[1] == ':') || path[0] == '/'
  }

  /** The folder already ends in a separator. */
  predicate EndsInSeparator(folder: string)
    requires |folder| >= 1
  {
    folder[|folder| - 1] == '/' || folder[|folder| - 1] == '\\'
  }

  /**
   * The full path: the path itself when absolute, else the folder, a '/'
   * unless the folder ends in a separator, then the path. The source reads
   * `path[1]` and the folder's last character, so both must be non-empty.
   */
  function ResolvePath(path: string, folder: string): (r: string)
    requires IsCString(path) && |path| >= 1 && |folder| >= 1
    ensures IsAbsolute(path) ==> r == path
    ensures !IsAbsolute(path) ==>
      |r| == |folder| + |path| + (if EndsInSeparator(folder) then 0 else 1) &&
      r[..|folder|] == folder && r[|r| - |path|..] == path &&
      (!EndsInSeparator(folder) ==> r[|folder|] == '/')
    ensures IsCString(folder) ==> IsCString(r)
  {
    if IsAbsolute(path) then path
    else
      var withSeparator := if EndsInSeparator(folder) then folder else folder + "/";
      withSeparator + path
  }

  /**
   * With an absolute assets folder, every resolved path is absolute, so
   * resolving it again changes nothing.
   */
  lemma ResolveIdempotent(path: string, folder: string)
    requires IsCString(path) && IsCString(folder) && |path| >= 1 && |folder| >= 1 && folder[0] == '/'
    ensures var r := ResolvePath(path, folder); IsCString(r) && |r| >= 1 && ResolvePath(r, folder) == r
  {
    var r := ResolvePath(path, folder);
    if !IsAbsolute(path) {
      assert r[0] == r[..|folder|][0] == folder[0];
    }
  }

  // ---------------------------------------------------------------------
  // Formats

  /** The OpenGL enums the loader uses. */
  const GlLuminance: nat := 0x1909
  const GlLuminanceAlpha: nat := 0x190A
  const GlRgb: nat := 0x1907
  const GlRgba: nat := 0x1908
  const GlUnsignedByte: nat := 0x1401

  /** The `internalFormat`, `format` and `type` handed to the texture upload. */
  datatype PixelFormat = PixelFormat(internalFormat: nat, format: nat, pixelType: nat)

  datatype LoadError =
    | CannotRead(fullPath: string)   // the PNG does not open: a fatal error
    | UnknownBpp(bpp: int)           // a fatal error

  /** The format for 1, 2, 3 or 4 bytes per pixel. */
  function FormatFor(bpp: int): (r: Result<PixelFormat, LoadError>)
    ensures r.Ok? <==> 1 <= bpp <= 4
    ensures r.Ok? ==> r.value.internalFormat == r.value.format && r.value.pixelType == GlUnsignedByte
    ensures r.Err? ==> r.error == UnknownBpp(bpp)
  {
    var format :=
      if bpp == 1 then GlLuminance
      else if bpp == 2 then GlLuminanceAlpha
      else if bpp == 3 then GlRgb
      else GlRgba;
    if 1 <= bpp <= 4 then Ok(PixelFormat(format, format, GlUnsignedByte)) else Err(UnknownBpp(bpp))
  }

  /** The number of one-byte channels in each pixel of a format. */
  function Channels(format: nat): nat
  {
    if format == GlLuminance then 1
    else if format == GlLuminanceAlpha then 2
    else if format == GlRgb then 3
    else if format == GlRgba then 4
    else 0
  }

  /** The chosen format has exactly one byte per channel for each byte of a pixel. */
  lemma FormatKeepsBpp(bpp: int)
    requires 1 <= bpp <= 4
    ensures FormatFor(bpp).Ok? && Channels(FormatFor(bpp).value.format) == bpp
  {
  }

  // ---------------------------------------------------------------------
  // Loading

  /** What the PNG decoder reports: the image's size and bytes per pixel. */
  datatype PngImage = PngImage(width: nat, height: nat, bpp: int)

  /** The loaded texture's size, and what it was uploaded as. */
  datatype TexturePod = TexturePod(width: nat, height: nat, format: PixelFormat)

  /** The load's outcome for a given full path, apart from the one-time initialisation. */
  function Load(fullPath: string, open: string -> Option<PngImage>): (r: Result<TexturePod, LoadError>)
    ensures open(fullPath).None? ==> r == Err(CannotRead(fullPath))
    ensures open(fullPath).Some? ==>
      var image := open(fullPath).value;
      (r.Ok? <==> FormatFor(image.bpp).Ok?) &&
      (r.Ok? ==> r.value == TexturePod(image.width, image.height, FormatFor(image.bpp).value))
  {
    match open(fullPath)
    case None => Err(CannotRead(fullPath))
    case Some(image) =>
      match FormatFor(image.bpp)
      case Err(e) => Err(e)
      case Ok(format) => Ok(TexturePod(image.width, image.height, format))
  }

  /** The loader's function-static state: whether the next load is the first. */
  class TextureLoader {
    var first: bool
    /** How often the PNG library has been initialised. */
    var pngInits: nat

    /** The library is initialised once, by the first load. */
    predicate Valid()
      reads this
    {
      pngInits == (if first then 0 else 1)
    }

    constructor()
      ensures Valid() && first
    {
      first := true;
      pngInits := 0;
    }

    /** `LoadTexture`: initialise on the first call, resolve the path, open and upload. */
    method LoadTexture(path: string, folder: string, open: string -> Option<PngImage>)
      returns (r: Result<TexturePod, LoadError>)
      requires Valid() && IsCString(path) && |path| >= 1 && |folder| >= 1
      modifies this
      ensures Valid() && !first
      ensures pngInits == 1
      ensures r == Load(ResolvePath(path, folder), open)
    {
      if first {
        pngInits := pngInits + 1;
        first := false;
      }
      var fullPath: string;
      if (|path| >= 2 && path[1] == ':') || path[0] == '/' {
        fullPath := path;
      } else {
        fullPath := folder;
        var trailing := fullPath[|fullPath| - 1];
        if trailing != '/' && trailing != '\\' {
          fullPath := fullPath + "/";
        }
        fullPath := fullPath + path;
      }
      match open(fullPath)
      case None =>
        r := Err(CannotRead(fullPath));
      case Some(image) =>
        var format := FormatFor(image.bpp);
        if format.Err? {
          r := Err(format.error);
        } else {
          r := Ok(TexturePod(image.width, image.height, format.value));
        }
    }
  }
}
