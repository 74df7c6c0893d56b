/**
 * What the two scripts see of the world outside them: decoded images, a
 * snapshot of which files decode and which destinations can be written, and
 * the entries of a directory walk.  The image codec and the filesystem are
 * not modelled; their answers are inputs.
 */
module FileSystem {
  import opened Wrappers
  import opened PathOps

  /** One pixel as its band values. */
  type Pixel = seq<int>

  datatype Size = Size(width: nat, height: nat)

  /**
   * An image as Pillow's `Image.open` hands it over: its format name
   * (`img.format`), its mode (`img.mode`), its size, its pixel data
   * (`img.getdata()`) and its side-channel metadata (`img.info`).
   */
  datatype Image = Image(format: string, mode: string, size: Size, pixels: seq<Pixel>, info: map<string, string>)

  /**
   * The filesystem as the scripts find it: the paths that open as images
   * (every other path makes `Image.open` raise) and the destinations whose
   * write raises (missing directory, permissions, full disk, encoder error).
   */
  datatype Fs = Fs(images: map<string, Image>, unwritable: set<string>)

  /** `Image.open(path)`: the decoded image, or `None` where it raises. */
  function Open(fs: Fs, path: string): Option<Image>
  {
    if path in fs.images then Some(fs.images[path]) else None
  }

  predicate CanWrite(fs: Fs, path: string)
  {
    path !in fs.unwritable
  }

  /**
   * One tuple yielded by `os.walk(top)`: the directory names leading from
   * `top` down to this root (empty for `top` itself) and the file names in it.
   */
  datatype WalkEntry = WalkEntry(rel: seq<string>, files: seq<string>)

  /** The `root` that `os.walk(top)` yields for an entry: `top` joined with each name in turn. */
  function Root(top: string, rel: seq<string>): string
  {
    if rel == [] then top else Join(Root(top, rel[..|rel| - 1]), rel[|rel| - 1])
  }

  /**
   * `os.path.relpath(Root(top, rel), top)`: `"."` for `top` itself, otherwise
   * the names joined.  This assumes what `os.walk` guarantees but
   * `WalkEntry` does not enforce: the names are non-empty, free of
   * separators and never `.` or `..`, so normalisation changes nothing.
   */
  function RelPath(rel: seq<string>): string
  {
    if rel == [] then "." else Root(rel[0], rel[1..])
  }
}
