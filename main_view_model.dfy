/** The view-model of the main screen: it turns navigation-drawer selections
    into a file category and a title, and publishes the UI state of the file
    list (idle, in progress, loaded, error). */
module MainScreen {
  import opened Items
  import Merge

  /** Drawer item ids. They are generated resource ids, so only their being
      distinct matters; the values here are placeholders. */
  const NavDocs: int := 1
  const NavMusic: int := 2
  const NavPictures: int := 3
  const NavVideos: int := 4

  /** String resource ids of the screen titles (placeholders, distinct). */
  const TitleDoc: int := 101
  const TitleMusic: int := 102
  const TitlePic: int := 103
  const TitleVideo: int := 104

  datatype Option<T> = None | Some(value: T)

  /** What the file list observer is shown. */
  datatype UiState =
    | StateIdle
    | StateProgress
    | InternalFilesLoaded(items: seq<InternalItem>)
    | StateError(message: string)

  /** The category a drawer item selects; music, pictures and videos have
      their own, every other id falls back to documents. */
  function NavType(navId: int): FileType
  {
    if navId == NavMusic then Audio
    else if navId == NavPictures then Image
    else if navId == NavVideos then Video
    else Documents
  }

  /** The screen title of each category. */
  function TitleOf(t: FileType): int
  {
    match t
    case Documents => TitleDoc
    case Audio => TitleMusic
    case Image => TitlePic
    case Video => TitleVideo
  }

  /** Each category is selected by exactly the drawer ids listed here. */
  lemma NavTypeCases(navId: int)
    ensures NavType(navId) == Audio <==> navId == NavMusic
    ensures NavType(navId) == Image <==> navId == NavPictures
    ensures NavType(navId) == Video <==> navId == NavVideos
    ensures NavType(navId) == Documents <==> navId !in {NavMusic, NavPictures, NavVideos}
    ensures NavType(NavDocs) == Documents
  {
  }

  class MainViewModel {
    /** The title shown, as the string resource id it is looked up from;
        None until a drawer item has been selected. */
    var title: Option<int>
    /** The selected category. */
    var itemType: FileType
    /** The state published to the file list. */
    var state: UiState
    /** The last selected drawer item, kept to restore the screen. */
    var navId: int
    /** Whether queue events are being listened to; set by the first
        selection of an idle screen. */
    var queueSubscribed: bool

    /** The title, once set, is the one of the selected category. */
    ghost predicate Valid()
      reads this
    {
      title.Some? ==> title.value == TitleOf(itemType)
    }

    constructor ()
      ensures Valid()
      ensures title == None && itemType == Documents && state == StateIdle && navId == 0
      ensures !queueSubscribed
    {
      title := None;
      itemType := Documents;
      state := StateIdle;
      navId := 0;
      queueSubscribed := false;
    }

    /** First selection of the screen; only an idle screen is initialised,
        and only then does the screen start listening to queue events. */
    method SetInitialState(navId: int)
      requires Valid()
      modifies this
      ensures Valid()
      ensures old(state) != StateIdle ==>
                title == old(title) && itemType == old(itemType) && state == old(state) && this.navId == old(this.navId)
                && queueSubscribed == old(queueSubscribed)
      ensures old(state) == StateIdle ==>
                this.navId == navId && itemType == NavType(navId) && title == Some(TitleOf(itemType)) && state == StateProgress
                && queueSubscribed
    {
      if state != StateIdle {
        return;
      }
      OnNavItemSelected(navId);
      queueSubscribed := true;
    }

    /** A drawer item was selected: pick its category and title, remember
        the item and reload the list. */
    method OnNavItemSelected(navId: int)
      requires Valid()
      modifies this`title, this`itemType, this`navId, this`state
      ensures Valid()
      ensures this.navId == navId && itemType == NavType(navId)
      ensures title == Some(TitleOf(itemType))
      ensures state == StateProgress
    {
      var titleId: int;
      if navId == NavMusic {
        titleId := TitleMusic;
        itemType := Audio;
      } else if navId == NavPictures {
        titleId := TitlePic;
        itemType := Image;
      } else if navId == NavVideos {
        titleId := TitleVideo;
        itemType := Video;
      } else {
        titleId := TitleDoc;
        itemType := Documents;
      }
      title := Some(titleId);
      this.navId := navId;
      LoadFiles();
    }

    /** Starting a load shows progress until one of the completions below. */
    method LoadFiles()
      modifies this`state
      ensures state == StateProgress
    {
      state := StateProgress;
    }

    /** Both lists of the selected category have arrived: the queued items
        and the names found in the internal directory. */
    method OnFilesLoaded(queueItems: seq<InternalItem>, internalNames: seq<string>)
      modifies this`state
      ensures state == InternalFilesLoaded(Merge.DeleteDuplicates(queueItems, ListedItems(internalNames, itemType)))
    {
      var internalItems := ListedItems(internalNames, itemType);
      state := InternalFilesLoaded(Merge.DeleteDuplicates(queueItems, internalItems));
    }

    /** Listing or deleting failed. */
    method OnLoadFailed(message: string)
      modifies this`state
      ensures state == StateError(message)
    {
      state := StateError(message);
    }

    /** The copy queue reports a change of category `t`. Before the screen
        listens to the queue the event is lost; afterwards only a change of
        the selected category reloads the list. */
    method OnQueueChanged(t: FileType)
      modifies this`state
      ensures queueSubscribed && t == itemType ==> state == StateProgress
      ensures !queueSubscribed || t != itemType ==> state == old(state)
    {
      if queueSubscribed && t == itemType {
        LoadFiles();
      }
    }

    /** Deleting a file shows progress. When the delete call returns, the
        list is reloaded (OnFileDeleted); only an exception thrown by the
        delete call shows an error (OnLoadFailed). */
    method DeleteFile()
      modifies this`state
      ensures state == StateProgress
    {
      state := StateProgress;
    }

    /** The delete call returned. Its result, which is false when the file
        was not removed, is ignored: the list is reloaded either way. */
    method OnFileDeleted(deleted: bool)
      modifies this`state
      ensures state == StateProgress
    {
      LoadFiles();
    }
  }

  /** A listed internal file whose name is queued never shows after the
      queued items; one whose name is not queued is shown. */
  lemma LoadedListPrefersQueue(queueItems: seq<InternalItem>, internalNames: seq<string>, t: FileType, k: nat)
    requires k < |internalNames|
    ensures var r := Merge.DeleteDuplicates(queueItems, ListedItems(internalNames, t));
            (internalNames[k] in Merge.Names(queueItems) ==> InternalItem(internalNames[k], t, ItemLoadSuccess) !in r[|queueItems|..])
            && (internalNames[k] !in Merge.Names(queueItems) ==> InternalItem(internalNames[k], t, ItemLoadSuccess) in r)
  {
    var items := ListedItems(internalNames, t);
    var r := Merge.DeleteDuplicates(queueItems, items);
    assert items[k] == InternalItem(internalNames[k], t, ItemLoadSuccess);
    assert items[k] in items;
  }
}
