# Secured files: main-screen view-model

A Dafny model of the main screen's view-model of an Android app that keeps
files (documents, audio, pictures, videos) in a private internal directory.

The view-model does three things, and the model covers each of them:

- **Merge the two file lists without duplicates.** One list holds the files
  still being copied and encrypted (the queue). The other holds the files
  already in the internal directory. A large video that is still being
  copied can be in both lists. The merge keeps the queued entry and drops
  the internal item with the same file name.
- **Handle drawer selections.** A drawer item id selects a file category
  and a screen title. Music, pictures and videos each have their own
  category. Every other id, known or not, selects documents.
- **Publish the UI state of the file list.** The states are idle, progress,
  loaded and error. The initial selection is applied only while the screen
  is idle.

Files:

- `items.dfy` (module `Items`): the categories, the per-item load state and
  the list item, which is identified by its file name.
- `merge.dfy` (module `Merge`): the merge, written as functions, with lemmas
  on prefix, exclusion, membership, order, length, idempotence and unique
  names.
- `main_view_model.dfy` (module `MainScreen`): the id-to-category mapping
  and the class `MainViewModel`. Its fields are `title`, `itemType` (the
  source's `type`), `state`, `navId` and `queueSubscribed` (whether queue
  events are listened to). Its methods update them in place.

The drawer and string resource ids are generated by the build and are not
part of this model. They appear as distinct placeholder constants, and the
proofs rely only on their being distinct. The `StateLiveData` holder and its
states are not part of this model either. They are modelled as the datatype
`UiState`, starting in `StateIdle`. The failure a state carries is modelled
as a message string.

The merge takes and returns immutable sequences, so neither input list can
change. This matches the source, which copies the queue list with
`toMutableList()` before appending to it.

## Model

| member | source | states |
|---|---|---|
| `Items.ListedItems` | app/src/main/java/mobile/addons/securedfiles/ui/main/MainViewModel.kt:90 | each internal file becomes one item, in listing order, with that file's name, the selected category and the default load state `ItemLoadSuccess` |
| `Merge.Names` | app/src/main/java/mobile/addons/securedfiles/ui/main/MainViewModel.kt:106 | the set holds exactly the file names that occur in the queue list |
| `Merge.WithoutNames` | app/src/main/java/mobile/addons/securedfiles/ui/main/MainViewModel.kt:107 | the filtered list holds exactly the items of `i` whose name is not excluded, and it is never longer than `i` |
| `Merge.DeleteDuplicates` | app/src/main/java/mobile/addons/securedfiles/ui/main/MainViewModel.kt:105-109 | the result starts with the whole queue list, unchanged; no later element has a queued name; an item is in the result iff it is queued, or it is internal and its name is not queued |
| `Merge.WithoutNamesAppend` | app/src/main/java/mobile/addons/securedfiles/ui/main/MainViewModel.kt:107 | filtering distributes over concatenation, so the kept internal items keep their relative order |
| `Merge.WithoutNamesSingle` | app/src/main/java/mobile/addons/securedfiles/ui/main/MainViewModel.kt:107 | a single item is kept exactly when its name is not excluded; with `WithoutNamesAppend` this fixes the filter on every list |
| `Merge.WithoutNamesKeepsAll` | app/src/main/java/mobile/addons/securedfiles/ui/main/MainViewModel.kt:107 | if no name in a list is excluded, the filter returns that list unchanged |
| `Merge.WithoutNamesDropsAll` | app/src/main/java/mobile/addons/securedfiles/ui/main/MainViewModel.kt:107 | if every name in a list is excluded, the filter returns an empty list |
| `Merge.KeptLength` | app/src/main/java/mobile/addons/securedfiles/ui/main/MainViewModel.kt:107 | the filtered length equals the count of items whose name is not excluded |
| `Merge.MergeLength` | app/src/main/java/mobile/addons/securedfiles/ui/main/MainViewModel.kt:105-109 | result length = queue length + number of internal items whose name is not queued |
| `Merge.EmptyQueue` | app/src/main/java/mobile/addons/securedfiles/ui/main/MainViewModel.kt:105-109 | with an empty queue the result is the internal list itself |
| `Merge.DisjointNames` | app/src/main/java/mobile/addons/securedfiles/ui/main/MainViewModel.kt:105-109 | when the two lists share no file name, the result is the queue list followed by the whole internal list |
| `Merge.Idempotent` | app/src/main/java/mobile/addons/securedfiles/ui/main/MainViewModel.kt:105-109 | merging the same queue into an already merged list changes nothing |
| `Merge.KeptUnique` | app/src/main/java/mobile/addons/securedfiles/ui/main/MainViewModel.kt:107 | filtering a list with unique names gives a list with unique names |
| `Merge.UniqueAfterMerge` | app/src/main/java/mobile/addons/securedfiles/ui/main/MainViewModel.kt:84-86 | if each input names every file at most once, so does the merged list: every file appears once even while it is in both lists |
| `MainScreen.LoadedListPrefersQueue` | app/src/main/java/mobile/addons/securedfiles/ui/main/MainViewModel.kt:90-92 | a listed internal file whose name is queued never appears after the queued items; one whose name is not queued appears in the loaded list |
| `MainScreen.NavTypeCases` | app/src/main/java/mobile/addons/securedfiles/ui/main/MainViewModel.kt:48-65 | `nav_music` selects audio, `nav_pictures` images and `nav_videos` video, each exactly; every other id, `nav_docs` and unknown ids included, selects documents, and `nav_docs` does in particular |
| `MainScreen.MainViewModel.constructor` | app/src/main/java/mobile/addons/securedfiles/ui/main/MainViewModel.kt:27-30 | starts with no title, the documents category, the idle state, `navId` 0 and no subscription to queue events |
| `MainScreen.MainViewModel.SetInitialState` | app/src/main/java/mobile/addons/securedfiles/ui/main/MainViewModel.kt:34-40 | if the state is not idle, nothing changes; if it is idle, the call has exactly the effect of `OnNavItemSelected(navId)` and then starts listening to queue events |
| `MainScreen.MainViewModel.OnNavItemSelected` | app/src/main/java/mobile/addons/securedfiles/ui/main/MainViewModel.kt:46-69 | afterwards `navId` is the given id, the category is the mapped one, the title is that category's title and the list is loading; the title stays consistent with the category |
| `MainScreen.MainViewModel.LoadFiles` | app/src/main/java/mobile/addons/securedfiles/ui/main/MainViewModel.kt:87-98 | starting a load sets the state to progress and changes nothing else |
| `MainScreen.MainViewModel.OnFilesLoaded` | app/src/main/java/mobile/addons/securedfiles/ui/main/MainViewModel.kt:92-96 | when both lists arrive, the state becomes loaded with the deduplicated merge of the queue and the listed internal items of the selected category |
| `MainScreen.MainViewModel.OnLoadFailed` | app/src/main/java/mobile/addons/securedfiles/ui/main/MainViewModel.kt:96 | an exception while listing or deleting sets the error state with the failure and changes nothing else |
| `MainScreen.MainViewModel.OnQueueChanged` | app/src/main/java/mobile/addons/securedfiles/ui/main/MainViewModel.kt:37-40 | an event before the screen listens to the queue is lost; afterwards an event for the selected category reloads the list, and one for any other category leaves the state unchanged |
| `MainScreen.MainViewModel.DeleteFile` | app/src/main/java/mobile/addons/securedfiles/ui/main/MainViewModel.kt:74-81 | starting a deletion sets the state to progress and changes nothing else; an exception from the delete call is `OnLoadFailed` |
| `MainScreen.MainViewModel.OnFileDeleted` | app/src/main/java/mobile/addons/securedfiles/ui/main/MainViewModel.kt:75-79 | when the delete call returns, the list reloads and the state is progress, whether the call reported the file removed or not |

## Left out

- Reactive plumbing is not modelled: `Observable.zip`, the schedulers, `subscribeOn`/`observeOn` and `CompositeSubscription`. Asynchronous completions are methods the caller invokes: `OnFilesLoaded`, `OnLoadFailed`, `OnQueueChanged` and `OnFileDeleted`. The queue subscription is kept only as the flag `queueSubscribed`.
- MainScreen.MainViewModel.OnFilesLoaded: does not check that a load was started; the model does not limit when a completion arrives, and the caller is trusted to call it only after `LoadFiles`.
- MainScreen.MainViewModel.OnFileDeleted: does not check that a deletion was started, for the same reason; the caller is trusted to call it only after `DeleteFile`.
- MainScreen.MainViewModel.OnLoadFailed: does not check that a load or deletion was started, for the same reason.
- MainScreen.MainViewModel.OnFilesLoaded: tags the internal items with the category selected when the lists arrive. In the source, the category is read when the background fetch runs, and a selection made in between is not modelled.
- File system calls are not modelled: `file.delete()`, `context.getInternalFiles` and `fileManager.getQueueItems` are foreign code. Their results are parameters. A delete call that returns, even with `false`, leads to `OnFileDeleted`; only an exception leads to `OnLoadFailed`.
- Platform lookups and side effects are not modelled: `context.getString` (the title is kept as its string resource id), `log`/`logItems` and `onCleared`, including unsubscribing, so `queueSubscribed` is never cleared.
- A `File` object is modelled as its name only. `InternalItem.loadState` is a mutable field in the source, but items are immutable values here, so aliasing of items between lists is not captured.
- The main activity (drawer, toolbar, menu, intents) and the fragment-manager extensions are platform glue with no logic of their own, so they are not part of this model.
