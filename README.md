# CINIC-10 index and batch loader, modelled in Dafny

This project models the core of `rs-cinic-10-index`, a Rust crate that indexes
the CINIC-10 image dataset and loads batches of its images:

- the `ObjectClass` and `DataSet` enums, their lowercase names and parsers,
  and the sample-count constants (`classes.dfy`);
- `parse_synset_map`, the parser of the synset file. In that file a class
  header line names a class. Each data line below it starts with dashes,
  whose number is the node's depth, and carries an id and aliases. The parent
  of a node is the nearest earlier line of the same class block that has
  fewer dashes (`synsets.dfy`);
- `list_pngs_sorted`, the `.png` filter of a directory listing followed by a
  sort, and `DatasetIndex`: the ten class directories of a split, in
  declaration order, with the queries from item index to class, path and
  image batch (`dataset_index.dfy`);
- `RgbImageBatch`, the generic `load_batch` loader and
  `load_bhwc_rgbimagebatch`, which packs the decoded images into one byte
  buffer in batch-height-width-channel order (`images.dfy`).

Some parts of the system are inputs to the model:

- The contents of a directory are a `Listing`, a function from a class to
  its entries, or `None` when the directory cannot be read.
- An image decoder is a `Decoder`, a function from a path to an RGB image,
  or `None` when the file cannot be opened or decoded.
- The synset file is given as its text, or as its lines.

Three string modules support the model:

- `text.dfy`: the standard-library string operations the code uses (`trim`,
  `find`, `split`, `trim_start_matches`, `BufRead::lines`, the order of
  `String`);
- `sorting.dfy`: a sort that is proved sorted and a permutation, together
  with the fact that there is only one such result;
- `wrappers.dfy`: `Option` and `Result`.

Every panic of the source (`unwrap` on a missing value, `assert!`,
`assert_eq!`) is modelled as the failure `Fail`, the same outcome as an
`Err`. The exceptions are out-of-range indices and the shape checks in
`RgbImageBatch::new`, which become preconditions.

Two behaviours of the code are easy to miss, and the model keeps both:

- A blank line in the synset file is not skipped. Once trimmed it does not
  start with `-`, so it is read as a class header. `ObjectClass::from_str("")`
  fails, so the whole parse fails (`Synsets.HeaderLine`).
- The index does not store bare file names. It stores the full path
  `read_dir` gives for each entry, which is the class directory joined with
  the file name (see Findings).

## Model

| member | source | states |
|---|---|---|
| Classes.ClassCount | crates/rs-cinic-10-index/src/index.rs:70-71 | there are ten classes, and a split holds 9000 × 10 = 90000 samples |
| Classes.ClassIndex | crates/rs-cinic-10-index/src/index.rs:57-68 | every class has a position in the declaration order, and the class at that position is the class itself |
| Classes.AllClassesDistinct | crates/rs-cinic-10-index/src/index.rs:57-68 | any two places of the declaration order hold different classes, and at every place `i` of the ten the class there has position `i` |
| Classes.ParseObjectClass | crates/rs-cinic-10-index/src/index.rs:50-68 | parsing succeeds exactly on the ten lowercase names, and the class it returns has the parsed text as its name |
| Classes.ClassNameRoundTrip | crates/rs-cinic-10-index/src/index.rs:438-459 | parsing a class's name gives the class back; `""` and `"bad"` are refused |
| Classes.ClassName | crates/rs-cinic-10-index/src/index.rs:50-57 | the `Display` name of a class is a non-empty run of the letters `a`-`z` |
| Classes.ParseDataSet | crates/rs-cinic-10-index/src/index.rs:29-39 | parsing succeeds exactly on `train`, `test` and `valid`, and returns the split with that name |
| Classes.DataSetName | crates/rs-cinic-10-index/src/index.rs:30-35 | the `Display` name of a split is a non-empty run of the letters `a`-`z` |
| Classes.DataSetNameRoundTrip | crates/rs-cinic-10-index/src/index.rs:428-436 | parsing a split's name gives the split back; `""` and `"bad"` are refused |
| Text.Trim | crates/rs-cinic-10-index/src/index.rs:151 | the result is the window of the input that starts after its leading whitespace, with only whitespace after it in the input; it neither starts nor ends with whitespace, and an input that is already trimmed comes back unchanged |
| Text.IndexOf | crates/rs-cinic-10-index/src/index.rs:180 | the result is `None` exactly when the character is absent; otherwise it is the position of the first occurrence |
| Text.CountLeading | crates/rs-cinic-10-index/src/index.rs:176-178 | gives the length of the run of dashes that `trim_start_matches` removes: every character before it is a dash, and the one after it is not |
| Text.Split | crates/rs-cinic-10-index/src/index.rs:184 | splitting gives at least one piece, and no piece holds the separator |
| Text.SplitCount | crates/rs-cinic-10-index/src/index.rs:184 | splitting on a separator gives one more piece than there are separators |
| Text.SplitJoin | crates/rs-cinic-10-index/src/index.rs:184 | the pieces of a split, joined again with the separator, give back the original text |
| Text.Lines | crates/rs-cinic-10-index/src/index.rs:149 | no line read holds a line feed |
| Text.LinesUnlines | crates/rs-cinic-10-index/src/index.rs:148-150 | reading back, line by line, text written one line per line feed gives the same lines, provided no line holds a line feed or ends in a carriage return |
| Text.StrLeTotal | crates/rs-cinic-10-index/src/index.rs:243 | any two strings are ordered one way or the other |
| Text.StrLeAntisymmetric | crates/rs-cinic-10-index/src/index.rs:243 | two strings ordered both ways are equal |
| Text.StrLeTransitive | crates/rs-cinic-10-index/src/index.rs:243 | the string order is transitive |
| Sorting.SortStrings | crates/rs-cinic-10-index/src/index.rs:243 | the sorted paths are in order and are a permutation of the input |
| Sorting.SortedUnique | crates/rs-cinic-10-index/src/index.rs:243 | two sorted permutations of the same paths are equal, so the sort's result does not depend on the algorithm |
| Sorting.SortIgnoresInputOrder | crates/rs-cinic-10-index/src/index.rs:229-243 | inputs that are permutations of each other sort to the same sequence |
| Synsets.ParseSynsetMap | crates/rs-cinic-10-index/src/index.rs:139-212 | the loop over the lines returns exactly the left fold of the one-line step over those lines |
| Synsets.PopWhileDeeper | crates/rs-cinic-10-index/src/index.rs:187-193 | the inner loop leaves exactly `PopDeeper` of the stack: a prefix of it whose top is shallower than the new line, every removed entry being at least as deep |
| Synsets.DataLineFields | crates/rs-cinic-10-index/src/index.rs:175-184 | a trimmed data line is refused exactly when it has no colon; otherwise the depth is the number of leading dashes, the id is the text from there to the first colon, and the aliases are the trimmed comma-separated pieces after it |
| Synsets.AliasCount | crates/rs-cinic-10-index/src/index.rs:183-184 | there is one alias per comma plus one; an empty alias text gives the single alias `""` |
| Synsets.PopDeeper | crates/rs-cinic-10-index/src/index.rs:186-192 | popping removes exactly the trailing entries whose depth is at least the new depth, and keeps the prefix below them |
| Synsets.FailSticks | crates/rs-cinic-10-index/src/index.rs:149-163 | once a line has failed, the whole parse fails |
| Synsets.RunConsistent | crates/rs-cinic-10-index/src/index.rs:186-208 | in every state the parser reaches, the stack depths strictly increase, every id on the stack is a node of the current class, and every node is stored under its own id |
| Synsets.HeaderLine | crates/rs-cinic-10-index/src/index.rs:153-157 | a header line succeeds exactly when it is one of the ten class names, so a blank line fails; it makes that class current, empties the stack and leaves the map unchanged |
| Synsets.DataLineStep | crates/rs-cinic-10-index/src/index.rs:159-208 | a data line succeeds exactly when a class is current and the line has a colon. On success it inserts or overwrites the node for its id, with the current class and the top of the popped stack as parent, and changes no other entry. Every depth left on the stack is below the line's depth, and the line ends on top |
| Synsets.ParentInSameBlock | crates/rs-cinic-10-index/src/index.rs:194-206 | the parent recorded for a new node is a node already in the map and has the same class |
| Synsets.NoHeaderNoClass | crates/rs-cinic-10-index/src/index.rs:145-157 | no class is current until a header line has been read |
| Synsets.DataLineBeforeHeaderFails | crates/rs-cinic-10-index/src/index.rs:159-163 | a data line that comes before every header makes the parse fail |
| Synsets.PopDeeperTwice | crates/rs-cinic-10-index/src/index.rs:186-192 | popping down to one depth and then to a smaller depth is the same as popping straight down to the smaller depth |
| Synsets.PopAfterPush | crates/rs-cinic-10-index/src/index.rs:186-199 | after a push, popping to a depth deeper than the pushed one leaves the pushed id on top; otherwise it leaves the same top as popping the old stack |
| Synsets.StackTopIsNearest | crates/rs-cinic-10-index/src/index.rs:186-199 | the top of the stack popped to depth `d` is the last data line of the current block whose depth is below `d` |
| Synsets.ParentIsNearestShallower | crates/rs-cinic-10-index/src/index.rs:186-206 | the parent of a node is the nearest earlier data line of the same class block with fewer dashes, or none when there is no such line |
| Synsets.WorkedExample | crates/rs-cinic-10-index/src/index.rs:502-560 | for any two classes, ids and aliases of the shape used in the crate's synset test, parsing the six-line text gives exactly the four nodes the test expects: the child at depth 6 has the first node as parent, and the others have none |
| DatasetIndexing.LastIndexOf | crates/rs-cinic-10-index/src/index.rs:232 | the result is `None` exactly when the character is absent; otherwise it is the position of the last occurrence |
| DatasetIndexing.PathJoinParts | crates/rs-cinic-10-index/src/index.rs:260 | joining an absolute path gives that path; otherwise the result is the base, then a `/` exactly when the base is non-empty and does not already end in one, then the joined path |
| DatasetIndexing.ExtensionAfterLastDot | crates/rs-cinic-10-index/src/index.rs:232 | a name has an extension exactly when it is not `..` and has a dot after its first character; the extension is then the text after the last dot and holds no dot |
| DatasetIndexing.PngSuffix | crates/rs-cinic-10-index/src/index.rs:232-233 | an entry has extension exactly `png` when its name ends in `.png` and has at least one character before that |
| DatasetIndexing.PngPathsMember | crates/rs-cinic-10-index/src/index.rs:229-241 | a path is kept exactly when it is the directory joined with the name of a readable entry whose extension is `png` |
| DatasetIndexing.PngPathsPermutation | crates/rs-cinic-10-index/src/index.rs:229-241 | listings that are permutations of each other keep permutations of the same paths |
| DatasetIndexing.ListPngsSorted | crates/rs-cinic-10-index/src/index.rs:223-246 | the result is an error exactly when the directory cannot be read; otherwise it is sorted and is a permutation of the kept paths |
| DatasetIndexing.ListPngsSortedMember | crates/rs-cinic-10-index/src/index.rs:229-245 | the sorted list holds exactly the paths of the readable `.png` entries |
| DatasetIndexing.ListPngsSortedOrder | crates/rs-cinic-10-index/src/index.rs:229-245 | the result does not depend on the order in which the directory lists its entries |
| DatasetIndexing.LoadIndexFromDir | crates/rs-cinic-10-index/src/index.rs:255-268 | the loop over the classes returns exactly the catalogue of the ten classes when it holds 90000 items, and fails otherwise |
| DatasetIndexing.CatalogueFailSticks | crates/rs-cinic-10-index/src/index.rs:259-262 | once a class directory fails, the whole load fails |
| DatasetIndexing.CatalogueOk | crates/rs-cinic-10-index/src/index.rs:259-262 | the catalogue exists exactly when every class directory succeeds |
| DatasetIndexing.CatalogueLength | crates/rs-cinic-10-index/src/index.rs:259-262 | the catalogue holds as many items as the classes contribute paths |
| DatasetIndexing.PngCountFiles | crates/rs-cinic-10-index/src/index.rs:229-243 | each class contributes one path per readable `.png` entry |
| DatasetIndexing.LoadedSize | crates/rs-cinic-10-index/src/index.rs:265-281 | the `len` of a loaded index is 90000, so `is_empty` is false |
| DatasetIndexing.LoadIndexOk | crates/rs-cinic-10-index/src/index.rs:255-268 | loading succeeds exactly when every class directory can be read and together they hold 90000 `.png` entries |
| DatasetIndexing.CatalogueOrder | crates/rs-cinic-10-index/src/index.rs:259-262 | every item of a class comes before every item of a later class, and within a class the paths are in order |
| DatasetIndexing.CatalogueClass | crates/rs-cinic-10-index/src/index.rs:259-262 | the items of each class are exactly that class's sorted paths, in the same order |
| DatasetIndexing.BlocksLength | crates/rs-cinic-10-index/src/index.rs:259-262 | when each of the first `n` classes contributes `m` paths, the catalogue succeeds with `n*m` items |
| DatasetIndexing.BlockItem | crates/rs-cinic-10-index/src/index.rs:259-262 | when every class contributes `m` paths, item `k*m + j` is path `j` of class `k` |
| DatasetIndexing.CatalogueBlocksDiv | crates/rs-cinic-10-index/src/index.rs:259-262 | when every class contributes `m` paths, item `i` is path `i % m` of class `i / m` |
| DatasetIndexing.ClassFilesCount | crates/rs-cinic-10-index/src/index.rs:229-245 | a class directory that can be read contributes one path per `.png` entry |
| DatasetIndexing.FullSplit | crates/rs-cinic-10-index/src/index.rs:255-289 | with 9000 `.png` entries in every class directory, loading succeeds, and item `i` is path `i % 9000` of class `i / 9000` |
| DatasetIndexing.ThreeClasses | crates/rs-cinic-10-index/src/index.rs:292-297 | in an index laid out in blocks of 9000, the classes of items 0, 9000 and 18000 are airplane, automobile and bird |
| DatasetIndexing.FirstOfEachClass | crates/rs-cinic-10-index/src/index.rs:562-580 | for a full split, items 0, 9000 and 18000 are an airplane, an automobile and a bird, as the crate's batch test expects |
| DatasetIndexing.CatalogueSame | crates/rs-cinic-10-index/src/index.rs:259-262 | classes that contribute the same paths give the same catalogue |
| DatasetIndexing.LoadIndexListingOrder | crates/rs-cinic-10-index/src/index.rs:229-268 | the index does not depend on the order in which the directories list their entries |
| DatasetIndexing.DatasetIndex.IsEmpty | crates/rs-cinic-10-index/src/index.rs:279-281 | the index is empty exactly when its length is 0 |
| DatasetIndexing.DatasetIndex.IndicesToClasses | crates/rs-cinic-10-index/src/index.rs:292-297 | gives one class per index, in the given order with repeats kept, each being that item's class |
| DatasetIndexing.DatasetIndex.IndicesToPaths | crates/rs-cinic-10-index/src/index.rs:326-331 | gives one path per index, in the given order with repeats kept, each being that item's path |
| DatasetIndexing.ItemsOfMember | crates/rs-cinic-10-index/src/index.rs:259-262 | every item's path is among the paths listed for its class |
| DatasetIndexing.ClassOfItem | crates/rs-cinic-10-index/src/index.rs:284-289 | the class `index_to_class` gives for an item is the class whose sorted listing holds the item's stored path (`ImagePath`), and no earlier item has a later class |
| DatasetIndexing.IndexPathListed | crates/rs-cinic-10-index/src/index.rs:229-262 | the path stored for an item is the class directory joined with the name of a `.png` entry of that directory |
| DatasetIndexing.ClassDirShape | crates/rs-cinic-10-index/src/index.rs:260 | a class directory path is non-empty and does not end in `/`; it is absolute exactly when the split directory is |
| DatasetIndexing.IndexToPathParts | crates/rs-cinic-10-index/src/index.rs:308-314 | `index_to_path` gives an absolute stored path as it is, and puts the class directory and one `/` in front of a relative one |
| DatasetIndexing.AbsoluteRootPath | crates/rs-cinic-10-index/src/index.rs:308-315 | for an absolute split directory, `index_to_path` gives the stored path, which is the listed file |
| DatasetIndexing.RelativeRootDoubles | crates/rs-cinic-10-index/src/index.rs:308-315 | for a relative split directory, `index_to_path` puts the class directory in front of the stored path a second time, so it differs from the listed file |
| DatasetIndexing.RelativeRootExample | crates/rs-cinic-10-index/src/index.rs:308-315 | split directory `data` with file `data/airplane/x.png` stored for an airplane gives the path `data/airplane/data/airplane/x.png` |
| DatasetIndexing.LoadRgbImageBatch | crates/rs-cinic-10-index/src/index.rs:342-349 | the load succeeds exactly when the images at the items' paths form a batch; the batch then holds one image per index, in order, with the shape and bytes of that batch |
| Images.PixelBytes | crates/rs-cinic-10-index/src/images.rs:75-79 | every pixel contributes three bytes |
| Images.PixelBytesAt | crates/rs-cinic-10-index/src/images.rs:75-79 | pixel `k` is stored as bytes `3k`, `3k+1` and `3k+2`: red, green, blue |
| Images.PixelBytesAppend | crates/rs-cinic-10-index/src/images.rs:75-79 | the bytes of two runs of pixels are the bytes of the first followed by those of the second |
| Images.RgbImageBatch.constructor | crates/rs-cinic-10-index/src/images.rs:51-60 | a new batch has the given shape, of four dimensions with three channels last, and no data |
| Images.RgbImageBatch.Channels | crates/rs-cinic-10-index/src/images.rs:93-95 | a batch built by the constructor has 3 channels |
| Images.RgbImageBatch.PushRgbPixels | crates/rs-cinic-10-index/src/images.rs:71-80 | the image's pixel bytes are appended to the data, which is otherwise unchanged, and the shape is unchanged |
| Images.LoadBatch | crates/rs-cinic-10-index/src/images.rs:116-148 | the loop returns exactly what the loader's specification gives: failure for an empty list, then the first image fixes the shape and every image goes to the callback in path order |
| Images.CallbackOrder | crates/rs-cinic-10-index/src/images.rs:133-145 | when every image decodes with the first one's size, the per-image callback is called once per path, with the indices 0 to n-1 in order |
| Images.DecodeAll | crates/rs-cinic-10-index/src/images.rs:135-138 | the result exists exactly when every path decodes, and then it holds the decoded images in path order |
| Images.PackedLayout | crates/rs-cinic-10-index/src/images.rs:159-171 | a batch of `n` images of `w` by `h` pixels holds `n*h*w*3` bytes, and image `i` occupies the slice starting at byte `i*h*w*3` |
| Images.LoadBatchPacks | crates/rs-cinic-10-index/src/images.rs:116-171 | the loader with the packing callbacks gives the shape and the packed bytes of the decoded images exactly when the batch decodes, and fails otherwise |
| Images.DecodeBatchOk | crates/rs-cinic-10-index/src/images.rs:124-143 | a batch decodes exactly when the list is non-empty, every path decodes, and every image has the first image's width and height |
| Images.BatchLayout | crates/rs-cinic-10-index/src/images.rs:124-171 | the batch's first dimension is the number of paths, its bytes number the product of its dimensions, and image `i`, the one decoded from `paths[i]`, occupies its own slice, pixel by pixel in RGB order |
| Images.LoadBhwcRgbImageBatch | crates/rs-cinic-10-index/src/images.rs:159-171 | the load succeeds exactly when the batch decodes; the new batch is valid, its shape is `[n, h, w, 3]` and its data is every image's pixel bytes in path order. Its `batch_size` is the number of paths, `height` and `width` are the first image's, `channels` is 3, and the data holds `batch_size * height * width * channels` bytes |

## Left out

- Reading the synset file can fail with an I/O error or on text that is not UTF-8. The model starts from the text, or from its lines, so these errors are not modelled.
- `parse_contrib_index`, `IndexRecord`, `Cinic10Index::new_from_dir`, `Default` and `lib.rs` are not part of this model, and neither is the `rs-cinic-10-burn` crate. They are CSV parsing, environment lookup and framework glue around the core.
- Image decoding is not modelled: `load_rgbimage` (the `image` crate) is the `Decoder` parameter, and its errors are a `None` from it.
- `read_dir` is not modelled: the entries it yields, in whatever order, are the `Listing` input. An entry that reports an error is an `EntryError`, which the filter skips.
- Paths follow `Path::join` for `/`-separated text (`DatasetIndexing.PathJoin`): an absolute right side replaces the left. Path normalisation and platform separators are not modelled.
- `to_str().unwrap()` panics on a path that is not UTF-8. The model's paths are strings, so this case does not arise.
- The `PathBuf` sort is modelled as the order of the path strings by code point. It is the same order, because every path of one directory shares the same prefix and the names hold no `/`. Only the sort's result is modelled, not `slice::sort`'s algorithm.
- Widths (`usize`, `u32`, `u8`) are unbounded integers, except that bytes are 0-255. No count in the model can overflow them on a real dataset.
- `RgbImageBatch::size` and the capacity reserved in `new` only affect allocation, and are not modelled.
- The `ds_path` accessor, `Debug` and `Clone` are not modelled.
- Images.LoadBhwcRgbImageBatch: it runs the loader's loop directly on the batch object, because its per-image callback updates the batch in place. `Images.LoadBatchPacks` proves that the packing callbacks give the same result through the generic loader.
- Panics and `Err` results are both `Fail`. The model does not tell them apart.
- DatasetIndexing.LoadRgbImageBatch: it reads the paths `index_to_path` gives, as the source does. `DatasetIndexing.AbsoluteRootPath` shows these are the listed files when the split directory is absolute. For a relative one they are not (see Findings).

## Findings

| source | as written | input that shows it | evidently intended | confidence | as-written member | corrected member |
|---|---|---|---|---|---|---|
| crates/rs-cinic-10-index/src/index.rs:234 with 260 and 308-315 | `list_pngs_sorted` stores each entry's full path, which is the class directory joined with the file name. `index_to_path` then joins the class directory to that path again. | split directory `data` (relative), class airplane, file `x.png`: the stored path is `data/airplane/x.png` and `index_to_path(0)` is `data/airplane/data/airplane/x.png`, a file that does not exist. For an absolute split directory the second join is harmless. | the path of an item is the listed file: the stored path, or the class directory joined with the bare file name | high (not executed) | DatasetIndexing.RelativeRootDoubles | DatasetIndexing.IndexPathListed |
