/** Data shapes of the secured-files main screen: the file categories, the
    per-item load state and the list item shown for a file. */
module Items {

  /** The four categories a navigation-drawer entry selects. */
  datatype FileType = Documents | Audio | Image | Video

  /** Transient UI annotation of one item (not persisted). */
  datatype ItemLoadState = ItemLoadSuccess | ItemLoadProgress | ItemLoadError(message: string)

  /** A file of one category, identified by its file name. A freshly
      listed item is in the ItemLoadSuccess state. */
  datatype InternalItem = InternalItem(fileName: string, itemType: FileType, loadState: ItemLoadState)

  /** Items for the files found in the internal directory of category `t`,
      each with the default load state, in listing order. */
  function ListedItems(names: seq<string>, t: FileType): (r: seq<InternalItem>)
    ensures |r| == |names|
    ensures forall k :: 0 <= k < |r| ==>
              r[k].fileName == names[k] && r[k].itemType == t && r[k].loadState == ItemLoadSuccess
  {
    seq(|names|, k requires 0 <= k < |names| => InternalItem(names[k], t, ItemLoadSuccess))
  }
}
