# Dataset preparation for semi-supervised image classification, in Dafny

This project models the deterministic core of `create_datasets.py`, the script that
downloads image datasets (SVHN, CIFAR-10, CIFAR-100, STL-10, MNIST, Fashion-MNIST and a
local two-class retina folder) and stores each split as a TFRecord file of
`(PNG image, label)` records. The model covers these parts:

- **Bytes.** `_read32`, the big-endian uint32 reader.
- **Idx.** The IDX header and body decoding of the MNIST-style loaders:
  - magic 2051 for images and 2049 for labels;
  - the uint32 product `n*row*col` wraps modulo 2^32;
  - the label read is not length-checked.
- **Layout** and **Unflatten.** numpy `reshape` and `transpose` as index maps on rank-4
  arrays, and the CIFAR, STL-10 and SVHN layouts built from them.
- **Labels.** The label arithmetic:
  - SVHN `% 10`;
  - STL-10 `- 1` on uint8, where 0 wraps to 255;
  - the in-order concatenation of the CIFAR-10 batches;
  - the folder loader's zeros-then-ones labels.
- **Paths.** POSIX `os.path.join`, `str.format` with one field, and `fnmatch` for `*.jpg`.
- **Loaders.** Every loader, with the archive, download and image-decoding libraries
  passed in as parameters.
- **Records.** `_save_as_tfrecord`'s record writer, as a class whose record sequence grows
  one record at a time.
- **Driver.** `_is_installed` and `main`, over a file store class. They are proved
  against specification functions that state:
  - entries are visited in order;
  - unrequested entries are skipped;
  - installed entries are skipped;
  - each split is dispatched on its name, three ways.

The data directory (`core.DATA_DIR`) and the folder dataset's root directory are
parameters. So are:

- every download (a function from URL to bytes or to a loaded `.mat` file);
- every tar archive (a map from member name to content);
- every directory listing (a map from directory to entry names);
- PNG encoding and PIL image loading (functions).

Errors the script raises become `Err` values:

| raised in the script | modelled as |
|---|---|
| failed `assert` on a magic number | `BadMagic` |
| short read | `ShortRead` |
| a reshape of the wrong size | `ShapeMismatch` |
| a missing dictionary key | `MissingKey` |
| a missing archive member | `MissingMember` |
| a missing directory | `MissingDirectory` |
| unequal image and label counts | `LengthMismatch` |
| a payload of the wrong kind | `WrongPayload` |
| `np.concatenate` of matrices whose column counts differ | `ConcatMismatch` |

## Model

All source paths are `examples/classify/semi_supervised/img/scripts/create_datasets.py`.

| member | source | states |
|---|---|---|
| Bytes.Read | examples/classify/semi_supervised/img/scripts/create_datasets.py:246 | `data.read(n)` returns n bytes from the position, or fewer at the end of the stream, and advances by what it returned |
| Bytes.Read32 | examples/classify/semi_supervised/img/scripts/create_datasets.py:244-246 | succeeds exactly when four bytes remain; the value is below 2^32; its top byte is the first byte read and its low byte the last; the reader advances by 4 |
| Bytes.Read32Encode32 | examples/classify/semi_supervised/img/scripts/create_datasets.py:244-246 | big-endian encoding of any uint32, read back at any stream position, gives the same value |
| Bytes.Encode32Read32 | examples/classify/semi_supervised/img/scripts/create_datasets.py:244-246 | re-encoding the value read gives back the four bytes read, so the decoder is a bijection on 4-byte words |
| Idx.Word | examples/classify/semi_supervised/img/scripts/create_datasets.py:244-246 | a header word is below 2^32 |
| Idx.Read32Word | examples/classify/semi_supervised/img/scripts/create_datasets.py:203-206 | the header words are what successive reads at positions 0, 4, 8 and 12 return |
| Idx.DecodeImages | examples/classify/semi_supervised/img/scripts/create_datasets.py:202-208 | succeeds iff all of these hold: the header is complete; the magic is 2051; `n*row*col` fits in uint32; the body holds that many bytes. A wrong magic gives `BadMagic(2051, found)`. The result has shape (n, row, col, 1) |
| Idx.WrappedRead | examples/classify/semi_supervised/img/scripts/create_datasets.py:207-208 | reading the uint32-wrapped product yields exactly `n*row*col` bytes iff the product does not wrap and the data holds it, so the reshape fails otherwise |
| Idx.DecodeImagesAt | examples/classify/semi_supervised/img/scripts/create_datasets.py:207-208 | element [i, r, c, 0] of the decoded images is byte `16 + i*row*col + r*col + c` of the file |
| Idx.DecodedPixels | examples/classify/semi_supervised/img/scripts/create_datasets.py:207-208 | decoded images are the reshape of the `n*row*col` bytes right after the 16-byte header |
| Idx.PixelOffset | examples/classify/semi_supervised/img/scripts/create_datasets.py:208 | the row-major position of [i, r, c, 0] in shape (n, row, col, 1) is `i*row*col + r*col + c`, below `n*row*col` |
| Idx.DecodeEncodeImages | examples/classify/semi_supervised/img/scripts/create_datasets.py:203-208 | an image file built from a header and `n*row*col` pixels, with any trailer, decodes to those pixels in (n, row, col, 1) layout |
| Idx.HeaderWord | examples/classify/semi_supervised/img/scripts/create_datasets.py:244-246 | a word written big-endian at byte k is read back as the same value |
| Idx.DecodeLabels | examples/classify/semi_supervised/img/scripts/create_datasets.py:211-214 | succeeds iff the 8-byte header is complete and the magic is 2049 (else `BadMagic(2049, found)`); the labels are the next `n_labels` bytes, or fewer when the file is shorter |
| Idx.DecodeEncodeLabels | examples/classify/semi_supervised/img/scripts/create_datasets.py:212-214 | a label file built from a header and labels, with any trailer, decodes to exactly those labels |
| Layout.OffsetInRange | examples/classify/semi_supervised/img/scripts/create_datasets.py:208 | every in-bounds index has a row-major position inside the buffer |
| Layout.Coords | examples/classify/semi_supervised/img/scripts/create_datasets.py:208 | every buffer position is the row-major position of an in-bounds index |
| Layout.OffsetInjective | examples/classify/semi_supervised/img/scripts/create_datasets.py:100-102 | `Coords` undoes `Offset` on in-bounds indices, so row-major order is a bijection |
| Layout.Reshape | examples/classify/semi_supervised/img/scripts/create_datasets.py:208 | `reshape` succeeds iff the buffer length equals the shape's size; the result has that shape |
| Layout.ReshapeAt | examples/classify/semi_supervised/img/scripts/create_datasets.py:208 | element i of the reshaped array is the buffer entry at i's row-major position |
| Layout.Position | examples/classify/semi_supervised/img/scripts/create_datasets.py:59 | input axis m is the output axis k with p[k] == m |
| Layout.Source | examples/classify/semi_supervised/img/scripts/create_datasets.py:59 | output coordinate k is read from input axis p[k] |
| Layout.SourceInBounds | examples/classify/semi_supervised/img/scripts/create_datasets.py:59 | an in-bounds output index reads an in-bounds input index |
| Layout.Transpose | examples/classify/semi_supervised/img/scripts/create_datasets.py:59 | `np.transpose(x, p)` has axis k of extent s[p[k]] |
| Layout.TransposeAt | examples/classify/semi_supervised/img/scripts/create_datasets.py:59 | output element i of the transpose is the input element at `Source(p, i)` |
| Layout.Target | examples/classify/semi_supervised/img/scripts/create_datasets.py:59 | the output index that reads input index j has coordinate k equal to j[p[k]] |
| Layout.SourceBijective | examples/classify/semi_supervised/img/scripts/create_datasets.py:59 | Source and Target are inverse, in-bounds-preserving maps, so a transpose moves every element exactly once |
| Layout.ModOfMultiple | examples/classify/semi_supervised/img/scripts/create_datasets.py:100-102 | proof helper for the CIFAR and STL-10 onto lemmas: reducing modulo a multiple of d keeps the remainder modulo d |
| Layout.DivBelow | examples/classify/semi_supervised/img/scripts/create_datasets.py:100-102 | proof helper for the onto lemmas: a position below bound*d has a quotient below bound |
| Unflatten.CifarPixel | examples/classify/semi_supervised/img/scripts/create_datasets.py:100-102 | after reshape to (rows, 3, 32, 32) and transpose [0, 2, 3, 1], pixel [n][h][w][c] is buffer entry `n*3072 + c*1024 + h*32 + w` |
| Unflatten.Cifar | examples/classify/semi_supervised/img/scripts/create_datasets.py:100-102 | CIFAR `unflatten` succeeds iff the buffer has 3072 bytes per row; the result has shape (rows, 32, 32, 3) with `out[n][h][w][c] == flat[n*3072 + c*1024 + h*32 + w]` |
| Unflatten.CifarIndexOnto | examples/classify/semi_supervised/img/scripts/create_datasets.py:100-102 | every buffer position is read by the in-bounds pixel its quotients and remainders name |
| Unflatten.CifarIndexInjective | examples/classify/semi_supervised/img/scripts/create_datasets.py:100-102 | distinct pixels read distinct buffer positions; with `CifarIndexOnto` the map is a bijection and the element count is preserved |
| Unflatten.Stl10Pixel | examples/classify/semi_supervised/img/scripts/create_datasets.py:69-70 | after reshape to (-1, 3, 96, 96) and transpose [0, 3, 2, 1], pixel [n][i][j][c] is buffer entry `n*27648 + c*9216 + j*96 + i` |
| Unflatten.Stl10 | examples/classify/semi_supervised/img/scripts/create_datasets.py:69-70 | STL-10 `unflatten` succeeds iff the length is a multiple of 27648 (the -1 must divide evenly); shape (len/27648, 96, 96, 3) with the index formula above, i.e. CIFAR's with the spatial axes swapped |
| Unflatten.Stl10IndexOnto | examples/classify/semi_supervised/img/scripts/create_datasets.py:69-70 | every buffer position is read by the pixel its quotients and remainders name |
| Unflatten.Stl10IndexInjective | examples/classify/semi_supervised/img/scripts/create_datasets.py:69-70 | distinct pixels read distinct buffer positions |
| Unflatten.Svhn | examples/classify/semi_supervised/img/scripts/create_datasets.py:59 | SVHN images move the batch axis from last to first: shape (N, 32, 32, 3) with `out[n][h][w][c] == X[h][w][c][n]` |
| Labels.SvhnLabels | examples/classify/semi_supervised/img/scripts/create_datasets.py:61-63 | one label per input; every label is in 0..9; raw 10 becomes 0; raw 1..9 are unchanged |
| Labels.SvhnLabelsOnto | examples/classify/semi_supervised/img/scripts/create_datasets.py:62-63 | every digit 0..9 is the image of some raw label 1..10 |
| Labels.Stl10Labels | examples/classify/semi_supervised/img/scripts/create_datasets.py:84-86 | one label per byte; a raw label b >= 1 becomes b - 1; raw 0 wraps to 255 (uint8) |
| Labels.Stl10LabelsRange | examples/classify/semi_supervised/img/scripts/create_datasets.py:84-86 | raw classes 1..10 become 0..9, and two labels are equal after the shift iff they were equal before |
| Labels.ConcatAll | examples/classify/semi_supervised/img/scripts/create_datasets.py:112-113 | `np.concatenate` has the total length of its parts |
| Labels.ConcatAllAt | examples/classify/semi_supervised/img/scripts/create_datasets.py:112-113 | for parts of m elements each, element i of the concatenation is element i % m of part i / m |
| Labels.TotalLengthUniform | examples/classify/semi_supervised/img/scripts/create_datasets.py:112-113 | parts of m elements each concatenate to `|parts| * m` elements |
| Labels.ConcatFive | examples/classify/semi_supervised/img/scripts/create_datasets.py:108-113 | the five batches concatenate to batch 1, then 2, 3, 4 and 5 |
| Labels.ZerosThenOnes | examples/classify/semi_supervised/img/scripts/create_datasets.py:146-149 | `len(imgs0) + len(imgs1)` labels, each 0 or 1, and label k is 1 iff k >= `len(imgs0)` |
| Labels.ZerosThenOnesCount | examples/classify/semi_supervised/img/scripts/create_datasets.py:146-149 | the labels hold exactly `len(imgs0)` zeros and `len(imgs1)` ones |
| Labels.CountAppend | examples/classify/semi_supervised/img/scripts/create_datasets.py:146-149 | counting a value in `list(a) + list(b)` adds the counts in a and b |
| Labels.CountConst | examples/classify/semi_supervised/img/scripts/create_datasets.py:147-148 | `np.zeros(n)` holds n zeros and no other value (likewise `np.ones`) |
| Paths.Join | examples/classify/semi_supervised/img/scripts/create_datasets.py:127-138 | POSIX `os.path.join`, all three cases: an absolute second part replaces the first; a first part that is empty or ends in `/` is followed directly by the second; otherwise one `/` goes between them |
| Paths.JoinUnder | examples/classify/semi_supervised/img/scripts/create_datasets.py:132-137 | joining a relative name onto a directory gives `dir/name`, which lies under `dir/` |
| Paths.Format | examples/classify/semi_supervised/img/scripts/create_datasets.py:56 | `str.format` leaves a template without fields unchanged |
| Paths.FormatField | examples/classify/semi_supervised/img/scripts/create_datasets.py:199 | `(before + "{}" + after).format(arg)` is `before + arg + after` |
| Paths.JpgFiles | examples/classify/semi_supervised/img/scripts/create_datasets.py:133 | `fnmatch.filter(names, "*.jpg")` keeps exactly the names ending in `.jpg` |
| Paths.JpgFilesOne | examples/classify/semi_supervised/img/scripts/create_datasets.py:133 | a single name is kept iff it ends in `.jpg` |
| Paths.JpgFilesAppend | examples/classify/semi_supervised/img/scripts/create_datasets.py:133 | filtering a concatenated listing gives the matches of each piece, in listing order; with `JpgFilesOne` this fixes the order and multiplicity, as `fnmatch.filter` keeps them |
| Records.Zip | examples/classify/semi_supervised/img/scripts/create_datasets.py:262-266 | one record per image; record x holds `images[x]` and `labels[x]` |
| Records.ZipUnzip | examples/classify/semi_supervised/img/scripts/create_datasets.py:262-266 | the images and the labels can both be read back from the records |
| Records.ZipPrefix | examples/classify/semi_supervised/img/scripts/create_datasets.py:262-266 | after x+1 loop iterations the file holds the records of the first x+1 pairs, in index order |
| Records.RecordWriter.constructor | examples/classify/semi_supervised/img/scripts/create_datasets.py:261 | a new record file is empty |
| Records.RecordWriter.Write | examples/classify/semi_supervised/img/scripts/create_datasets.py:266 | `writer.write` appends one record and changes nothing else |
| Datasets.EncodePng | examples/classify/semi_supervised/img/scripts/create_datasets.py:48-49 | one PNG per image, PNG k being the encoding of image k |
| Datasets.EncodePngDecode | examples/classify/semi_supervised/img/scripts/create_datasets.py:48-49 | with a decoder that undoes the encoder, image k comes back from PNG k: nothing is lost or reordered |
| Datasets.Gather | examples/classify/semi_supervised/img/scripts/create_datasets.py:196-216 | a split dictionary filled in order: Ok iff every split reads; then split k is `(names[k], results[k])`; otherwise the error is that of the first failing split |
| Datasets.GatherStops | examples/classify/semi_supervised/img/scripts/create_datasets.py:196-216 | a loader whose split k fails after splits 0..k-1 read returns split k's error |
| Datasets.GatherTwo | examples/classify/semi_supervised/img/scripts/create_datasets.py:196-216 | a two-split loader succeeds iff both splits read; it returns the first failure's error, or both splits in order |
| Datasets.GatherAll | examples/classify/semi_supervised/img/scripts/create_datasets.py:196-216 | a loader whose splits all read returns them all, in order |
| Datasets.FirstMissing | examples/classify/semi_supervised/img/scripts/create_datasets.py:78-82 | the first archive member, in extraction order, that the archive lacks; all before it are present |
| Loaders.Lookup | examples/classify/semi_supervised/img/scripts/create_datasets.py:226 | `URLS[key]` succeeds iff the key is present, else `MissingKey(key)` |
| Loaders.SvhnPayload | examples/classify/semi_supervised/img/scripts/create_datasets.py:58-64 | an SVHN split holds N images, image n being the PNG of `Svhn(X)[n]`, the batch-first transpose; label k is raw label k `% 10`, so in 0..9 |
| Loaders.LoadSvhn | examples/classify/semi_supervised/img/scripts/create_datasets.py:52-65 | the splits train, test, extra in order, each the payload of the file its formatted URL names |
| Loaders.LoadStl10 | examples/classify/semi_supervised/img/scripts/create_datasets.py:68-96 | the first missing member fails first; Ok iff all six members are present and the three image files have whole 96x96x3 images; splits train, test, unlabeled, files with their images, shifted labels, 100000 zero labels and the fold file |
| Loaders.Cifar10BatchName | examples/classify/semi_supervised/img/scripts/create_datasets.py:109 | `data_batch_{}.mat` formatted with b has the digit b in place of the field |
| Loaders.Cifar10BatchNames | examples/classify/semi_supervised/img/scripts/create_datasets.py:108-109 | five batch names, for `range(1, 6)`: name k is batch k+1's |
| Loaders.ConcatRows | examples/classify/semi_supervised/img/scripts/create_datasets.py:112 | `np.concatenate(axis=0)` on matrices: Ok iff there is one and all column counts agree; rows add up, elements concatenate in order |
| Loaders.ConcatRowsConsistent | examples/classify/semi_supervised/img/scripts/create_datasets.py:112 | stacking well-formed matrices gives a well-formed matrix |
| Loaders.Cifar10 | examples/classify/semi_supervised/img/scripts/create_datasets.py:99-119 | the CIFAR-10 specification. Errors come in the script's order: the first missing batch, then `ConcatMismatch`, then a missing test batch. It succeeds iff all batches and the test batch exist, the batches concatenate, and both matrices are whole 32x32x3 images. On success the splits are train then test: train holds the PNGs of the CIFAR layout of the five stacked batches, test those of the test matrix with its labels |
| Loaders.Cifar10TrainSplit | examples/classify/semi_supervised/img/scripts/create_datasets.py:107-113 | the CIFAR-10 training labels are batches 1 to 5 concatenated in ascending order, with one image per row of the five batches |
| Loaders.SumRowsFive | examples/classify/semi_supervised/img/scripts/create_datasets.py:112 | the stacked row count of five matrices is the sum of theirs |
| Loaders.LoadCifar10 | examples/classify/semi_supervised/img/scripts/create_datasets.py:99-119 | the loop over the five batches returns exactly the CIFAR-10 specification |
| Loaders.LoadCifar100 | examples/classify/semi_supervised/img/scripts/create_datasets.py:174-189 | a missing `train.mat` fails first, then a missing `test.mat`; Ok iff both are present with 3072 bytes per row; train and test carry the fine labels |
| Loaders.IdxSplit | examples/classify/semi_supervised/img/scripts/create_datasets.py:198-215 | one IDX split: the image error first, then the label error; else the PNG-encoded images with the labels |
| Loaders.IdxSplits | examples/classify/semi_supervised/img/scripts/create_datasets.py:196-216 | the IDX specification: succeeds iff both `IdxSplit` reads (train, then t10k) succeed; otherwise it fails with the train error, or else the test error; on success the splits are `train` with the first payload and `test` with the second |
| Loaders.IdxSplitLoads | examples/classify/semi_supervised/img/scripts/create_datasets.py:203-214 | a split whose image and label files are well-formed IDX files loads, with the labels the file holds |
| Loaders.LoadIdx | examples/classify/semi_supervised/img/scripts/create_datasets.py:196-216 | the loop over (train, train) and (test, t10k) returns the IDX specification |
| Loaders.LoadIdxAt | examples/classify/semi_supervised/img/scripts/create_datasets.py:199 | a missing URL key gives `MissingKey`, otherwise the IDX splits of that template |
| Loaders.LoadMnist | examples/classify/semi_supervised/img/scripts/create_datasets.py:192-216 | the MNIST splits of the `mnist` URL template and the `.gz` file names |
| Loaders.LoadFashionMnist | examples/classify/semi_supervised/img/scripts/create_datasets.py:219-241 | as written: always `MissingKey("fashion_mnist")` |
| Loaders.LoadFashionMnistFrom | examples/classify/semi_supervised/img/scripts/create_datasets.py:219-241 | with a URL template supplied, the IDX splits of the Fashion-MNIST file names |
| Loaders.FashionMnistFromLoads | examples/classify/semi_supervised/img/scripts/create_datasets.py:219-241 | when the four fetched files are well-formed IDX files, the corrected loader returns train and test with their labels |
| Loaders.ClassFolder | examples/classify/semi_supervised/img/scripts/create_datasets.py:131-138 | Ok iff the folder exists, else `MissingDirectory`; the `.jpg` entries, each joined onto the folder, in listing order |
| Loaders.ClassFolderUnder | examples/classify/semi_supervised/img/scripts/create_datasets.py:131-138 | with slash-free directory entries, every file of a one-character class folder such as `0` or `1` starts with that folder's path and a `/` |
| Loaders.FolderSplit | examples/classify/semi_supervised/img/scripts/create_datasets.py:131-149 | succeeds iff both class folders exist, else `MissingDirectory` for folder 0 first, then folder 1. The files are folder 0's `*.jpg` paths then folder 1's, labelled n0 zeros then n1 ones |
| Loaders.FolderSplitLabels | examples/classify/semi_supervised/img/scripts/create_datasets.py:139-149 | label k is 1 exactly when file k lies under the split's folder `1` |
| Loaders.FolderPayload | examples/classify/semi_supervised/img/scripts/create_datasets.py:141-149 | Ok iff FolderSplit is; image k is the PNG of file k opened and resized to 100x100, and the labels are FolderSplit's |
| Loaders.LoadVoets | examples/classify/semi_supervised/img/scripts/create_datasets.py:121-172 | Ok iff train and test both read; the splits are train then test with their payloads |
| Driver.TfRecordWrite | examples/classify/semi_supervised/img/scripts/create_datasets.py:257-266 | Ok iff the payload has images and as many labels; unequal lengths fail the assertion; the file `<dir>/<filename>.tfrecord` holds record x = `(images[x], labels[x])` |
| Driver.SplitWrites | examples/classify/semi_supervised/img/scripts/create_datasets.py:320-331 | `readme` writes `<name>-readme.txt`; `files` writes each file under its name; any other split goes to the entry's saver with `<name>-<split>` when it has one, else to the record file `<name>-<split>.tfrecord` |
| Driver.ApplyWrites | examples/classify/semi_supervised/img/scripts/create_datasets.py:323-329 | every written path exists afterwards and holds the last content written to it; a path not written keeps its content; every new path was written |
| Driver.FirstFailure | examples/classify/semi_supervised/img/scripts/create_datasets.py:320-331 | the index of the first split whose writes fail; every split before it succeeds; it equals the split count iff every split succeeds |
| Driver.SaveSplits | examples/classify/semi_supervised/img/scripts/create_datasets.py:320-331 | saving splits never removes a file. It succeeds iff every split's writes can be made. Otherwise it fails with the error of the first failing split, and the files are those the splits before that one wrote |
| Driver.SaveSplitsKeeps | examples/classify/semi_supervised/img/scripts/create_datasets.py:320-331 | a path that no split writes keeps its content |
| Driver.SaveSplitsRecordContent | examples/classify/semi_supervised/img/scripts/create_datasets.py:330-331 | with the default saver and no failure, the record path of a split other than `readme` and `files` holds exactly the records `_save_as_tfrecord` builds for it, unless a later split writes that path again |
| Driver.Step | examples/classify/semi_supervised/img/scripts/create_datasets.py:307-331 | one iteration of `main`. An unrequested entry changes nothing. An installed one adds only a skip line. Otherwise a prepare line is added and no directory is created; then a load error leaves the store and ends the run with that error, and a successful load gives the files and failure of SaveSplits on its splits |
| Driver.RunConfigs | examples/classify/semi_supervised/img/scripts/create_datasets.py:307-331 | the loop of `main`: once an exception is raised nothing further happens; no directory beyond the data directory is created |
| Driver.MainSpec | examples/classify/semi_supervised/img/scripts/create_datasets.py:301-331 | `main` creates the data directory and no other directory |
| Driver.Requested | examples/classify/semi_supervised/img/scripts/create_datasets.py:302-305 | the requested names are `argv[1:]`, or every registry name when there are none |
| Driver.Visited | examples/classify/semi_supervised/img/scripts/create_datasets.py:312-317 | progress line k names the dataset of entry event k |
| Driver.RequestedInOrder | examples/classify/semi_supervised/img/scripts/create_datasets.py:307-309 | every name listed is requested and in the registry |
| Driver.RunVisitsInOrder | examples/classify/semi_supervised/img/scripts/create_datasets.py:307-316 | `main` reports a prefix of the requested entries in registry order, and all of them when no exception ends the run |
| Driver.OnlyRequestedProcessed | examples/classify/semi_supervised/img/scripts/create_datasets.py:307-309 | only names that are both requested and in the registry are ever skipped or prepared |
| Driver.RunKeepsFiles | examples/classify/semi_supervised/img/scripts/create_datasets.py:301-331 | a run never removes a file or directory |
| Driver.SaveSplitsRecords | examples/classify/semi_supervised/img/scripts/create_datasets.py:330-331 | with the default saver, every split other than `readme` and `files` leaves its record file |
| Driver.RunInstalls | examples/classify/semi_supervised/img/scripts/create_datasets.py:310-331 | after a run without an exception, every requested entry whose loader returns its checksum splits is installed |
| Driver.StepInstalls | examples/classify/semi_supervised/img/scripts/create_datasets.py:310-331 | one such entry processed without an exception is installed afterwards |
| Driver.RunSkipsInstalled | examples/classify/semi_supervised/img/scripts/create_datasets.py:310-316 | with every requested entry installed, the run skips each one and writes nothing |
| Driver.SecondRunSkipsAll | examples/classify/semi_supervised/img/scripts/create_datasets.py:301-331 | a second run with the same arguments after a clean first run prepares nothing and leaves the store, files and contents included, exactly as the first run left it |
| Driver.FileStore.constructor | examples/classify/semi_supervised/img/scripts/create_datasets.py:301-306 | the store starts with the given files and directories |
| Driver.FileStore.IsInstalled | examples/classify/semi_supervised/img/scripts/create_datasets.py:270-275 | true iff `<name>-<split>.tfrecord` exists for every checksum key |
| Driver.FileStore.WriteFile | examples/classify/semi_supervised/img/scripts/create_datasets.py:323-324 | the file now holds exactly the content; nothing else changes |
| Driver.FileStore.WriteAll | examples/classify/semi_supervised/img/scripts/create_datasets.py:326-329 | the raw files are written in order |
| Driver.FileStore.SaveAsTfRecord | examples/classify/semi_supervised/img/scripts/create_datasets.py:257-267 | unequal lengths fail and write nothing; otherwise the record file holds exactly `TfRecordWrite`'s records |
| Driver.FileStore.SaveAll | examples/classify/semi_supervised/img/scripts/create_datasets.py:320-331 | the loop over a loader's splits is `SaveSplits` |
| Driver.FileStore.Run | examples/classify/semi_supervised/img/scripts/create_datasets.py:301-331 | the imperative `main`, with `continue`-based skipping, ends in the state, progress lines and exception of `MainSpec` |
| Driver.ActiveRegistry | examples/classify/semi_supervised/img/scripts/create_datasets.py:291-298 | the registry enables only `voets`, with checksum keys train and test, and that entry covers its checksums |
| Driver.TrainTestCovers | examples/classify/semi_supervised/img/scripts/create_datasets.py:293 | an entry with the default checks, checksum keys train and test, and a loader returning splits train and test, has a record split for each checksum key |
| Driver.UnknownNamesIgnored | examples/classify/semi_supervised/img/scripts/create_datasets.py:302-309 | asking only for names the registry lacks creates the data directory and does nothing else |
| Driver.RunNoneRequested | examples/classify/semi_supervised/img/scripts/create_datasets.py:307-309 | a run over entries none of which is requested leaves the outcome unchanged |

`Driver.Installed` (lines 270-275) and `Driver.InstalledBy` (lines 310-314) are the predicates that specify the installed check; `FileStore.IsInstalled` and the run lemmas above state their properties.

## Left out

- Downloading (`request.urlretrieve`), temporary files, `tarfile`, `gzip` and `scipy.io.loadmat` are not modelled. Their results are parameters: a fetch function, a member map, or a loaded-matrix record.
- STL-10's local archive branch (`tf.io.gfile.exists('stl10/stl10_binary.tar.gz')`) is not modelled. Either branch yields an archive, and the archive's members are the parameter.
- PNG encoding (`to_png`) and `Image.open(...).resize(...)` are parameters. The `trange` progress bars and all `print` output are dropped, except that `main`'s skip and prepare lines become `Event`s.
- TFRecord and protobuf serialisation (`_int64_feature`, `_bytes_feature`, `tf.train.Example`, `SerializeToString`) is not modelled. A record is an abstract (image bytes, label) pair.
- `_save_files` and `_is_installed_folder` are not modelled, because no registry entry uses them. An entry's own `saver` and `is_installed` are still dispatched on, as parameters.
- The checksum values are not modelled: all are `None` and never compared. Only the key order of each `checksums` dict is kept.
- The hard-coded data directory of the folder loader is a parameter (`root`), and so is `core.DATA_DIR`.
- `tf.io.gfile.makedirs` is modelled as adding only the data directory, not its parents.
- Exceptions raised inside the parameter functions, and interruption, are not modelled.
- Paths.Format: only the first `{}` field is replaced. Escaped braces, positional and named fields, and format specs are not modelled; every template in the script has exactly one plain `{}`.
- Datasets.Gather: a split dictionary is modelled as a sequence of (name, payload) pairs in insertion order. Repeated split names, which the script never produces, would be kept twice instead of overwritten.
- Driver.RunConfigs: the registry is a sequence in dict order. Distinct names are not enforced, since a Python dict literal guarantees them.
- Loaders.SvhnPayload: labels are unbounded integers, not uint8. SVHN raw labels 1..10 fit either way.
- STL-10 labels keep the uint8 wrap-around: raw 0 becomes 255. This is stated as is rather than ruled out by a precondition.
- Layout: reshape and transpose are modelled for rank-4 arrays only. The rank-1 reshapes of label arrays (`reshape((-1))` at line 61 and `.flatten()` at lines 111, 116, 183 and 186) are modelled by taking the labels as a flat sequence.
- Loaders.LoadSvhn and Loaders.LoadMnist: no lemma spells out the concrete URL strings produced by formatting the templates.
- The `unlabeled` STL-10 split always gets 100000 zero labels, as in the script. No relation to its image count is stated, because the script does not ensure one.

## Findings

| source | as written | input that shows it | evidently intended | confidence | as-written member | corrected member |
|---|---|---|---|---|---|---|
| examples/classify/semi_supervised/img/scripts/create_datasets.py:226 | `_load_fashionmnist` looks up `URLS['fashion_mnist']`, but `URLS` (lines 39-45) has no such key, so the loader raises KeyError before any download. Line 235 has the same lookup | any call, whatever the downloads would hold | the loader reads the Fashion-MNIST IDX files from a URL template, like `_load_mnist` does | not executed | Loaders.LoadFashionMnist | Loaders.LoadFashionMnistFrom, with Loaders.FashionMnistFromLoads |
