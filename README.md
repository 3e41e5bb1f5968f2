# file-search-rust, modelled in Dafny

A desktop file and image search tool. This model covers its core logic:

- **File-name index.** While a directory tree is walked, every file path is filed under its final component in a map from file name to path set. A file search answers from that map. In exact mode it looks up one name. In prefix mode it asks a trie built from the map's keys.
- **Character trie.** The `trie` crate's hand-written trie stores full paths under each file name.
- **Directory walker.** It works from a stack of pending directories. It pops one, pushes the sub-directories it lists and hands each file to a callback.
- **Database records.** An image record and its semantic vector are written into the SQLite tables `images` and `semantic_vectors`. The database handle has an open/closed lifecycle. There are two read queries: exists-by-path and select-by-path.
- **Annotation service.** This covers the request address for the image-analysis service and the validating decoder for its JSON answer.
- **Image decisions.** Which images the indexer skips; which ten labels, and which ten search results, are kept.
- **Resize rule.** The dimension rule used before an image is annotated.

One module per source file or area:

| module | file | what it holds |
|---|---|---|
| `Common` | common.dfy | `Option`, `Result`, `Run` (a value or a panic), `Min`, the `as u32` cast |
| `Paths` | paths.dfy | `Path::file_name` on `/`-separated paths, the `\` to `/` rewrite |
| `PathTrie` | trie.dfy | `Node`, and the class `Trie` with `Insert` and `Search` |
| `DirWalk` | walker.dfy | the file tree as a value, the class `DirWalker`, and the traversal as a function with its lemmas |
| `Ranking` | ranking.dfy | the stable descending sort by score and the top-k cut |
| `Sqlite` | sqlite.dfy | the two tables as row sequences, rowids, and the UNIQUE path constraint |
| `SemanticVector` | semantic_vector.dfy | `SemanticVectorElement`, `SemanticVec` and their save |
| `ImageRecord` | image.dfy | `Image`: `new`, `set_semantic_vector`, and its save |
| `Database` | database.dfy | `Database`: open, `close`, `Drop`, `save`, `save_all`, and the two queries |
| `AzureApi` | azure_api.dfy | JSON values, the request address, `Label::from`, and `AzureResponse::try_from` |
| `ImageToText` | image_to_text.dfy | the new dimensions computed in `resize_image` |
| `AppProps` | app_props.dfy | the shared `App` state, `initialize_map`, the trie builders, `enable_prefix_search` |
| `UiFacade` | ui_facade.dfy | indexing, file search, `should_skip_image`, and the two top-ten cuts |

Modelling choices:

- A Rust panic (`unwrap`, `expect`, `panic!`, a `u32` overflow, a division by zero) is the result `Panicked` of `Run`. It is not a precondition.
- State that the program changes in place lives in classes whose methods have `modifies` clauses: `Trie`, `DirWalker`, `SemanticVec`, `Image`, `Connection`, `Database` and `App`. A value with no identity is a datatype.
- Each method is proved against a function of its inputs, such as `InsertAt`, `WalkTrace`, `SavedRows`, `Decode` or `IndexAll`. The promised properties are proved about that function.

## Model

| member | source | states |
|---|---|---|
| PathTrie.NewNode | src/trie/src/node.rs:14-21 | a new node has no path list (which differs from an empty list), no children, and the given letter |
| PathTrie.Trie.constructor | src/trie/src/trie.rs:14-18 | a new trie is one root node for `' '` and is well formed (each child stored under its own letter) |
| PathTrie.Key | src/trie/src/trie.rs:21-32 | insert follows the characters of the file name, or no characters (the root) when the path has none |
| PathTrie.AppendPath | src/trie/src/trie.rs:34-43 | pushing onto the path list gives a non-empty list ending in the path; an existing list is kept as the prefix, and an absent list becomes the singleton |
| PathTrie.Trie.Insert | src/trie/src/trie.rs:20-44 | the new root is the insertion of the path along its file name's characters (`InsertAt`), and every child is still stored under its own letter |
| PathTrie.Trie.Search | src/trie/src/trie.rs:46-56 | the answer is `Find`: `None` at the first character with no child, else the reached node's path list |
| PathTrie.InsertKeepsLetters | src/trie/src/trie.rs:26-30 | insertion creates each child under the letter it is stored at and keeps the root letter |
| PathTrie.FreshNodeFindsNothing | src/trie/src/trie.rs:14-18 | a fresh trie finds `None` for every name |
| PathTrie.FindAfterInsert | src/trie/src/trie.rs:20-44 | after inserting, searching the same name finds the old list with the path appended, so the list holds the path |
| PathTrie.InsertKeepsOtherNames | src/trie/src/trie.rs:26-30 | inserting under one name leaves the search result of every other name unchanged |
| PathTrie.InsertKeepsOtherSubtrees | src/trie/src/trie.rs:26-30 | every subtree off the inserted name's character path is unchanged |
| PathTrie.InsertCreatesKeyPath | src/trie/src/trie.rs:26-30 | after inserting, every prefix of the name leads to a node |
| PathTrie.DuplicatesAccumulate | src/trie/src/trie.rs:34-43 | inserting the same path twice leaves it twice at the end of the list |
| PathTrie.StrictPrefixFindsNothing | src/trie/src/trie.rs:48-55 | in a fresh trie with one insert, every strict prefix of the name finds `None` |
| PathTrie.SameNameSameNode | src/trie/src/trie.rs:24-25 | paths in different directories with the same file name follow the same characters to the same node |
| PathTrie.NamelessPathAtRoot | src/trie/src/trie.rs:24-43 | a path without a file name is pushed onto the root's own list and adds no child |
| Paths.LastSegment | src/trie/src/trie.rs:24 | the last segment is a slash-free suffix of the path, preceded by a slash when it is not the whole path |
| Paths.FileName | src/trie/src/trie.rs:24 | a file name, when there is one, is a non-empty name other than `.` and `..` and has no slash |
| Paths.JoinedFileName | src/trie/src/trie.rs:24 | the file name of `dir/n` is `n` for every directory |
| Paths.SameFileNameInAnyDirectory | src/trie/src/trie.rs:24-25 | two directories joined with the same name give the same file name |
| Paths.ReplaceBackslashesSpec | src/ui_facade/src/lib.rs:87 | the rewrite keeps the length, leaves no backslash, keeps every other character, and a second rewrite changes nothing |
| DirWalk.DirWalker.constructor | src/file_system/src/dir_walker.rs:11-15 | the pending list holds exactly the root |
| DirWalk.DirWalker.WalkApply | src/file_system/src/dir_walker.rs:63-111 | the loop pops until the list is empty, and the paths read and the callback calls are exactly those of `WalkTrace` |
| DirWalk.DirWalker.PushEntries | src/file_system/src/dir_walker.rs:83-99 | directory entries are pushed in listing order, file entries are handed to the callback in listing order, and other or unreadable entries are skipped |
| DirWalk.DirWalker.Walk | src/file_system/src/dir_walker.rs:17-61 | `walk` is the same traversal, and the printed lines are the files `walk_apply` would hand over |
| DirWalk.NextShrinks | src/file_system/src/dir_walker.rs:72-102 | one pop leaves strictly less work in a finite tree, so the loop ends |
| DirWalk.WalkCallsEachFileOnce | src/file_system/src/dir_walker.rs:63-111 | with one worker, every file reachable through readable directories is handed to the callback exactly once (as a multiset) |
| DirWalk.WalkReadsEachDirOnce | src/file_system/src/dir_walker.rs:63-111 | every pushed directory, the root included, is popped and read exactly once |
| DirWalk.WalkStep | src/file_system/src/dir_walker.rs:72-79 | the walk from a list is the pop of its last node, then the walk from the list that pop leaves |
| DirWalk.EmptyRootReadOnce | src/file_system/src/dir_walker.rs:71-103 | an empty root directory is read once and no callback is made |
| DirWalk.FilesAfterStep | src/file_system/src/dir_walker.rs:81-102 | the files one pop hands over, plus those still reachable, are the files reachable before the pop |
| DirWalk.DirsAfterStep | src/file_system/src/dir_walker.rs:81-102 | the path one pop reads, plus the directories still reachable, are the directories reachable before the pop |
| AppProps.PredictiveSearchSpec | src/ui_facade/src/lib.rs:470 | a stored key is predicted from itself and from each of its prefixes; the empty prefix predicts every key; a longer prefix predicts no more |
| AppProps.InitializeMap | src/app_props/src/app.rs:40-50 | no file gives the empty map, a file that decodes gives the map it holds, and a file that does not decode panics |
| AppProps.BuildTrie | src/app_props/src/app.rs:62-70 | the builder always gives the built variant, holding exactly the map's keys |
| AppProps.InitializeTrie | src/app_props/src/app.rs:52-61 | the fresh trie is the built variant over exactly the map's keys |
| AppProps.App.constructor | src/app_props/src/app.rs:17-23 | the shared state holds the given map, trie and flag |
| AppProps.App.EnablePrefixSearch | src/app_props/src/app.rs:72-83 | the first call builds the trie from the current keys and sets the flag; later calls change nothing; the map is never changed; the trie only names indexed keys |
| SemanticVector.NewElement | src/db/src/semantic_vector.rs:38-44 | a new element carries the given image id and value, with id 0 until it is saved |
| SemanticVector.UnsavedRoundTrip | src/db/src/semantic_vector.rs:37-62 | `from_vec`'s elements carry the given values in order, each with id 0 and image id 0 |
| SemanticVector.SemanticVec.constructor | src/db/src/semantic_vector.rs:48-50 | a new vector is empty |
| SemanticVector.SemanticVec.Push | src/db/src/semantic_vector.rs:52-54 | the element is appended at the end and earlier ones stay |
| SemanticVector.SemanticVec.FromVec | src/db/src/semantic_vector.rs:56-62 | the new vector is one unsaved element per value, in order |
| SemanticVector.SemanticVec.Clone | src/db/src/semantic_vector.rs:10-11 | the clone is a separate vector with the same elements |
| SemanticVector.SaveMatchesRows | src/db/src/semantic_vector.rs:15-26 | the k-th element writes the row with rowid `base + k` and its own image id and value, and then carries that rowid cast to `u32` |
| SemanticVector.SavedIdsIncrease | src/db/src/semantic_vector.rs:24 | while the rowids fit in `u32`, the saved ids strictly increase along the vector |
| SemanticVector.SavedRowsAppend | src/db/src/semantic_vector.rs:16-25 | saving two lists one after the other is saving their concatenation |
| SemanticVector.SaveElements | src/db/src/semantic_vector.rs:13-27 | the loop appends exactly `SavedRows` to `semantic_vectors`, leaves `images` alone, stamps each element with its rowid and leaves the last rowid |
| SemanticVector.SemanticVec.Save | src/db/src/semantic_vector.rs:29-35 | the vector's save is exactly the save of its element list |
| Sqlite.NextImageId | src/db/src/database.rs:15-19 | the next image rowid is positive and above every rowid in use |
| Sqlite.NextVectorId | src/db/src/database.rs:31-36 | the next vector rowid is positive and above every rowid in use |
| Sqlite.Connection.InsertImage | src/db/src/database.rs:15-19 | an existing path is rejected with a UNIQUE violation and nothing changes; otherwise one row with the next rowid is appended and becomes the last insert |
| Sqlite.Connection.InsertVector | src/db/src/database.rs:31-36 | one row with the next rowid is appended and becomes the last insert; `images` is untouched (foreign keys are not enforced) |
| Sqlite.ImagesWithPath | src/db/src/database.rs:72-77 | the rows returned by the `WHERE path = ?1` query are exactly the stored rows with that path |
| Sqlite.VectorsOf | src/db/src/database.rs:82-93 | the rows returned by the `WHERE image_id = ?1` query are exactly the stored rows of that image |
| Sqlite.AtMostOneRowPerPath | src/db/src/database.rs:15-19 | under the UNIQUE constraint a path matches at most one row, and exactly one when it is stored |
| ImageRecord.Image.constructor | src/db/src/image.rs:43-50 | a new image has id 0, the given path and title, and an empty vector |
| ImageRecord.StampedSpec | src/db/src/image.rs:36-41 | stamping sets every element's image id and keeps length, order, ids and values |
| ImageRecord.Image.SetSemanticVector | src/db/src/image.rs:36-41 | the loop stamps this image's id onto every element of the vector it takes; id, path and title stay |
| ImageRecord.Image.Save | src/db/src/image.rs:12-33 | a duplicate path returns the error and writes nothing; otherwise the image row is appended, the id becomes its rowid, the vector rows are written with that image id, and the last rowid is returned |
| Database.AsElements | src/db/src/database.rs:85-91 | each selected row becomes the element with the same id, image id and value |
| Database.SelectFindsStoredRow | src/db/src/database.rs:72-102 | a stored path selects its own id, path and title and exactly the vector rows of that id |
| Database.SelectPanicsWhenAbsent | src/db/src/database.rs:77 | a path that is not stored panics at the missing row |
| Database.NoVectorsOfNewImage | src/db/src/database.rs:82-93 | an image id beyond every row's image id selects no vector rows |
| Database.ImagesWithPathAppend | src/db/src/database.rs:72-77 | the path query over appended rows is the query over each part |
| Database.VectorsOfAppend | src/db/src/database.rs:82-93 | the image-id query over appended rows is the query over each part |
| Database.SavedRowsOfImage | src/db/src/image.rs:29-30 | every row saved for a stamped vector names that image |
| Database.ReadBackSavedRows | src/db/src/database.rs:85-93 | the rows a vector's save writes read back as the saved elements when their ids fit in `u32` |
| Database.SaveThenSelect | src/db/src/database.rs:72-102 | saving a new image with its vector and then selecting its path gives the saved id, path, title and saved elements |
| Database.Database.Open | src/db/src/database.rs:11-41 | a new handle holds the given open connection and has not been moved into `close` |
| Database.Database.Close | src/db/src/database.rs:51-54 | closing consumes the handle and takes the connection; it panics exactly when there was none |
| Database.Database.Drop | src/db/src/database.rs:44-48 | dropping a handle that was not closed always panics |
| Database.Database.Save | src/db/src/database.rs:62-64 | `save` panics exactly when the connection is gone; otherwise it is the item's own save |
| Database.Database.SaveAll | src/db/src/database.rs:66-70 | each item is saved once, in list order: the rows appended are those of one save of all items, and each item gets the rowids of its own stretch |
| Database.SavedEachIsOneSave | src/db/src/database.rs:66-70 | saving the items one by one stamps the same rowids as saving their concatenation |
| Database.Database.ExistsImageByPath | src/db/src/database.rs:104-110 | true exactly when some `images` row has the path; a panic when the connection is gone |
| Database.Database.SelectImageByPath | src/db/src/database.rs:72-102 | the result is `Select` over the current tables, and there is a panic when the connection is gone |
| AzureApi.IndexAgreesWithGet | src/img_azure/src/azure_api.rs:84-103 | `value[key]` is what `get(key)` finds, and `Null` (no string, no number) when the key is missing |
| AzureApi.SplitJoin | src/img_azure/src/azure_api.rs:26 | splitting comma-joined names without commas at `,` gives back the names |
| AzureApi.FeaturesOfAddress | src/img_azure/src/azure_api.rs:26 | the address is the fixed endpoint followed by the feature names, which split back out at `,` |
| AzureApi.NewRequest | src/img_azure/src/azure_api.rs:16-28 | the header insert panics exactly when the key has a byte a header value cannot hold; otherwise the request holds the key, no image and the joined address |
| AzureApi.LabelRoundTrip | src/img_azure/src/azure_api.rs:64-73 | `Label::from` reads back a label's own JSON, and it panics exactly when `name` is not a string or `confidence` is not a number |
| AzureApi.LabelsFromSpec | src/img_azure/src/azure_api.rs:102-104 | the label loop panics exactly when some element is malformed; otherwise it gives one label per element, in order |
| AzureApi.DecodeOutcomes | src/img_azure/src/azure_api.rs:83-110 | `NotFound` exactly when the caption text or the tag values are missing (the caption is checked first); a panic exactly when the values are not an array or an element is malformed; otherwise the caption and one label per element |
| AzureApi.DecodeResponseJson | src/img_azure/src/azure_api.rs:83-110 | a response's own JSON decodes back to that response |
| AzureApi.TryFrom | src/img_azure/src/azure_api.rs:83-110 | the loop that pushes labels computes exactly `Decode` |
| ImageToText.NewDimensions | src/image_to_text/src/lib.rs:196-201 | the new sides, when computed, fit in `u32` |
| ImageToText.PanicsExactly | src/image_to_text/src/lib.rs:196-201 | the rule panics exactly on a 0 x 0 image or when 600 times the shorter side overflows `u32` |
| ImageToText.LongerSideIs600 | src/image_to_text/src/lib.rs:197-201 | the longer side becomes 600, the other at most 600 and equal to the proportional length rounded down |
| ImageToText.SquareTo600 | src/image_to_text/src/lib.rs:199-200 | a square image becomes 600 x 600 |
| UiFacade.AddPath | src/ui_facade/src/lib.rs:95-102 | a new name gets a singleton set, a known name gets the path added, and every other name keeps its set |
| UiFacade.AddPathIdempotent | src/ui_facade/src/lib.rs:95-102 | recording the same path twice is recording it once, and no name or path is lost |
| UiFacade.KeyIsFileName | src/ui_facade/src/lib.rs:91 | the second rewrite of the file name changes nothing, so the key is the path's final part |
| UiFacade.NameHasNoBackslash | src/ui_facade/src/lib.rs:87-91 | a file name taken from a path without backslashes has none |
| UiFacade.IndexPathSpec | src/ui_facade/src/lib.rs:87-102 | indexing one file panics exactly when it has no file name; otherwise the file is indexed and everything indexed before stays |
| UiFacade.IndexFile | src/ui_facade/src/lib.rs:87-102 | the closure's update of the shared map is `IndexPath`; nothing else in the state changes |
| UiFacade.IndexAllPanics | src/ui_facade/src/lib.rs:86-104 | indexing the walked files panics exactly when one of them has no file name |
| UiFacade.IndexAllKeeps | src/ui_facade/src/lib.rs:86-104 | without a panic, every walked file is indexed and every earlier name and path stays |
| UiFacade.IndexDirectory | src/ui_facade/src/lib.rs:75-104 | the map after the walk is `IndexAll` of the old map over the files the walk hands over; trie and flag are untouched |
| UiFacade.IndexDirectoryCoversTree | src/ui_facade/src/lib.rs:75-104 | after indexing a directory, every file below it is indexed under its file name |
| UiFacade.LineInjective | src/ui_facade/src/lib.rs:474-484 | different paths under one name give different result lines |
| UiFacade.PushLines | src/ui_facade/src/lib.rs:483-485 | one `name: path` line per path of the set, and no other lines |
| UiFacade.FileSearch | src/ui_facade/src/lib.rs:464-489 | exact mode gives one line per path under the name, or none when the name is absent; prefix mode gives the lines of every predicted name, panics when the trie is unbuilt, and panics exactly when a predicted name is missing from the map, and otherwise pushes exactly as many lines as the predicted names have paths in all (`PrefixCount`); with a consistent state it never panics |
| UiFacade.PrefixCountRemove | src/ui_facade/src/lib.rs:474-485 | the number of lines prefix search pushes is the same whichever predicted name is taken first |
| UiFacade.PrefixFindsExact | src/ui_facade/src/lib.rs:468-487 | prefix mode finds every line exact mode finds for an indexed name |
| UiFacade.ShouldSkipImage | src/ui_facade/src/lib.rs:687-714 | non-files and non-images are kept; unreadable or out-of-range dimensions skip; otherwise the result is whether the path is stored, with a panic when there is no database |
| UiFacade.ScoredLabels | src/ui_facade/src/lib.rs:663 | each label is ranked by its own confidence, in order |
| UiFacade.TopLabelNames | src/ui_facade/src/lib.rs:663-666 | at most ten names, those of the first ten labels after the stable descending sort |
| UiFacade.TopLabelsAreBest | src/ui_facade/src/lib.rs:663-666 | the kept labels come best first, are drawn from the labels, and none has a lower confidence than a dropped one |
| UiFacade.SearchResults | src/ui_facade/src/lib.rs:52-58 | at most ten results, best first, each one a candidate, none worse than a dropped one |
| Ranking.InsertDesc | src/ui_facade/src/lib.rs:52-56 | inserting keeps every element and adds the new one |
| Ranking.InsertKeepsOrder | src/ui_facade/src/lib.rs:52-56 | inserting into a descending list keeps it descending |
| Ranking.SortDesc | src/ui_facade/src/lib.rs:52-56 | the sort is a permutation of its input |
| Ranking.SortIsDescending | src/ui_facade/src/lib.rs:52-56 | the sorted list is in descending order of score |
| Ranking.SortKeepsStrictlySorted | src/ui_facade/src/lib.rs:52-56 | a list that is already strictly descending is left as it is |
| Ranking.InsertLast | src/ui_facade/src/lib.rs:52-56 | an element scoring no higher than all others goes last, so ties keep their arrival order |
| Ranking.Take | src/ui_facade/src/lib.rs:58 | `take(k)` is the first `k` elements, or all when there are fewer |
| Ranking.TopKeepsTheBest | src/ui_facade/src/lib.rs:52-58 | the cut keeps `min(k, n)` elements drawn from the input, best first |
| Ranking.TopBeatsTheRest | src/ui_facade/src/lib.rs:52-58 | a kept element scores at least as high as any dropped one |
| Ranking.TopIsTheBest | src/ui_facade/src/lib.rs:52-58 | every kept element scores at least as high as every dropped one |
| Ranking.TopOfShortList | src/ui_facade/src/lib.rs:58 | a list of at most `k` elements is kept whole |
| Common.AsU32 | src/db/src/image.rs:26 | `as u32` gives a value below 2^32 that equals its input when the input fits |

## Left out

- Concurrency: `walk_apply` and `walk` run one worker per CPU over a shared stack. The model has a single worker, so it does not capture the interleaving of pops and pushes between threads. With several workers the order of calls differs, but each reachable file is still handed over once.
- `is_dir` following links: the file system is a finite tree value with no links, so the model has no link loops. In the program, `is_dir` and `is_file` (dir_walker.rs:40-43 and 87-90) follow links. The operating system stops resolving after a fixed number of links (40 on Linux, 63 reparse points on Windows), and past that both calls return false and the entry is skipped. So one loop does end, but before it does the walk hands every file below the loop to the callback once per pass. Several loops under one directory multiply the paths at each level, which makes the walk effectively endless. DirWalk.WalkCallsEachFileOnce and DirWalk.WalkReadsEachDirOnce therefore do not hold for a tree with link loops.
- Non-UTF-8 paths: `to_str()` returning `None` (the "Invalid path" branch, and the `unwrap` on pushed directories) is not modelled. Every path is a `string`.
- Floating point: scores and vector values are exact reals. NaN and the `partial_cmp(..).unwrap()` panic in the label sort are not modelled. In `search_images` a NaN comparison is treated as `Less`; with no NaN, the sort is the plain descending sort.
- `search_images` queries: the candidates `(path, id)` with their similarity come in as input. The per-image SQL queries, `select_all_images` and the cosine similarity are not modelled.
- `prepare_semantic_vec`, the word embeddings and `initialize_embeddings`: floating-point averaging over a foreign vocabulary file.
- I/O: `map.bin` is a value (absent, undecodable, or a map). bincode encoding is not modelled. Neither is the serialisation error that `index_directory` only prints.
- Network and files: `set_img`, `send_request`, the OAuth and HTTP code in processor.rs, the rate limiter, and `image::open`/`resize_exact`/`save` are left out. `im::image_dimensions`, `is_file` and `DirWalker::is_image` come in as inputs of `ShouldSkipImage`.
- The user interface: the Dioxus components, `tokio` tasks, channels and printing.
- UiFacade.IndexDirectory: `DirWalker::new` returns a `Result` (dir_walker.rs:11), but it always returns `Ok`, so the model's constructor cannot fail and the `Err` branch of the source is never taken. The source then calls an async `walk(closure)`, which dir_walker.rs does not have: its `walk` (line 17) is synchronous and takes no closure. The model uses `walk_apply`, so the closure runs for each file after the walk, in hand-over order. The order does not change the final map, because each update only adds.
- UiFacade.FileSearch: the flag is read with `.load(..)` on a `Mutex<bool>`, which is not a method of that type. The model reads the flag's value. The trie's predictive search over UTF-8 bytes is modelled as a prefix filter over the key set. The lines come in the order the set yields them, so the contract states their contents and their number, not their order.
- Paths.FileName: this is Unix `Path::file_name`: only `/` separates segments and there are no drive prefixes. The program targets Windows, and trie.rs:24 takes the file name without rewriting backslashes, so a path with `\` separators or a prefix such as `C:` gets a different answer there than here.
- UiFacade.ShouldSkipImage: `exists_image_by_path(..)` returns a `bool`, and the `.unwrap()` on it does not type-check. The model uses the `bool`.
- Database.Database.Save: the `Save` trait in database.rs takes `&Connection` and returns nothing, while `Image` implements a different signature (`&mut Connection`, a `Result`). `Database.save` and `save_all` are modelled for the trait's implementors, the semantic vectors. `Image`'s save is modelled separately as `ImageRecord.Image.Save`.
- Database.Database.SaveAll: the items are modelled as values (the element lists of the `Vec<T>`), and the method returns their saved versions. This leaves out aliasing between items, which a Rust `&mut Vec<T>` excludes anyway.
- Database.Database.Close: the error of `Connection::close` itself (`expect`) is not modelled. Closing an open connection always succeeds.
- Database.Database.Open: `Connection::open` and the `CREATE TABLE` and `CREATE INDEX` failures (`expect`) are not modelled. The handle is opened over a given connection whose tables meet the schema constraints: increasing rowids and unique paths. The `NOT NULL` constraints hold by typing.
- Sqlite: rows come back in rowid order, which SQLite does not promise without `ORDER BY`. The `FOREIGN KEY` on `image_id` is not enforced, which is SQLite's default.
- ImageToText.NewDimensions: `u32` overflow of `600 * side` is modelled as a panic, as in a build with overflow checks. A release build wraps around instead.
- Common.AsU32: rowids above 2^32 - 1 are truncated as `as u32` truncates. The model proves the increasing-id property only while rowids fit.
- AppProps: `trie_rs` is modelled by its key set. The byte-level trie and the order of its answers are not modelled.
- src/trie/src/arc_str.rs: `ArcStr` is a plain `string` compared by content.
- src/main.rs is not part of this model.
