/**
 * The records the wallpaper API returns and the artwork the source publishes.
 * Field names follow the JSON records of the wallpaper service. The item id
 * is kept to the 32-bit range of a Java `int`, since it is parsed, printed
 * and stored; a rendition's width and height are unbounded integers, which
 * only the height comparison reads.
 */
module Records {

  const MinInt32: int := -0x8000_0000
  const MaxInt32: int := 0x7FFF_FFFF

  /** A Java `int`. */
  type Int32 = x: int | -0x8000_0000 <= x <= 0x7FFF_FFFF

  /** One rendition of a wallpaper (`Resolution`). */
  datatype Resolution = Resolution(
    id: string,
    ilFile: string,    // image URL
    width: int,
    height: int,
    title: string)

  /** One catalog item (`Wallpaper`); `detail` lists its renditions in feed order. */
  datatype Wallpaper = Wallpaper(
    ilId: Int32,
    authorName: string,
    authorUrl: string,
    kind: string,      // the `type` field
    postTime: int,     // seconds since the epoch
    detail: seq<Resolution>)

  /** What is handed to the wallpaper host: image, title, token, byline and the page it links to. */
  datatype Artwork = Artwork(
    imageUri: string,
    title: string,
    token: string,
    byline: string,
    viewUri: string)

  /** The set of ids carried by the items of a list. */
  function ListIds(list: seq<Wallpaper>): (ids: set<Int32>)
    ensures forall i :: 0 <= i < |list| ==> list[i].ilId in ids
    ensures forall x :: x in ids ==> exists i :: 0 <= i < |list| && list[i].ilId == x
  {
    set i | 0 <= i < |list| :: list[i].ilId
  }
}
