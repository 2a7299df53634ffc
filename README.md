# persephone utilities: a Dafny model

This project models the data-preparation helpers in `persephone/utils.py` of the Persephone
speech-recognition toolkit, and proves what they compute:

- `make_batches`: groups utterance paths into batches for decoding.
- `target_list_to_sparse_tensor`: turns a ragged list of label sequences into the
  (indices, values, shape) triple of a sparse tensor.
- `zero_pad`: pads one utterance's feature array with zero frames.
- `load_batch_x`: pads every utterance of a batch to the longest one and reports their lengths.
- `get_prefixes`: lists the feature-file prefixes found by a directory walk, sorted.
- `get_prefix_lens`, `filter_by_size` and `sort_by_size`: pair prefixes with utterance
  lengths, then keep them by length or order them by length.

Modules:

- `Builtins`: the Python and numpy behaviour the code relies on.
  - `max` over a list.
  - `str.endswith` and `str.split(".")[0]`.
  - POSIX `os.path.join`.
  - `sorted` on strings, with Python's code-point order on `str`.
  - A `Result` type whose `Err` values stand for the exceptions the code raises.
- `Seqs`: concatenation of a list of lists, and index lists that increase.
- `Batches`: `make_batches`.
- `Sparse`: `target_list_to_sparse_tensor`.
- `Padding`: `zero_pad` and `load_batch_x`.
- `Prefixes`: `get_prefixes`.
- `Sizes`: `get_prefix_lens`, `filter_by_size` and `sort_by_size`.

Code that loops and mutates is modelled as methods:

- the nested appending loops of `target_list_to_sparse_tensor` and `get_prefixes`;
- the appending loop of `get_prefix_lens`;
- the preallocated arrays of `zero_pad` and `load_batch_x`;
- the in-place sort of `sort_by_size`.

Each method's `ensures` gives its result, either directly or through a specification
function whose properties are proved as lemmas. The list comprehensions of
`make_batches` and `filter_by_size` are modelled as functions.

Other inputs:

- A numpy feature array is a `Matrix` of rows of equal width: a frame count by a feature count.
- Reading files is replaced by input values.
  - `np.load` becomes the loaded arrays.
  - `os.walk` becomes the sequence of `(root, filenames)` entries it yields.
  - The feature file of each prefix becomes its loaded array.

## Model

| member | source | states |
|---|---|---|
| Batches.MakeBatches | persephone/utils.py:182-186 | A step of 0 is an error, as `range` raises. A negative size gives no batches. For a positive size: the batches concatenate back to `paths` in order; there are none exactly when `paths` is empty; otherwise their count `c` satisfies `(c-1)*size < len(paths) <= c*size`, which is the ceiling; batch `j` is the slice `paths[j*size : j*size+size]`; every batch but the last has `size` elements, and the last has between 1 and `size` |
| Batches.Chunks | persephone/utils.py:185-186 | The comprehension's slices for a positive step: there are at most as many slices as paths, and none is empty |
| Batches.ChunksConcat | persephone/utils.py:185-186 | Concatenating the slices gives back the input, in order |
| Batches.ChunksCount | persephone/utils.py:185-186 | The number of slices is the ceiling of `len(paths)/size` as a two-sided bound, and 0 only for empty input |
| Batches.ChunksSizes | persephone/utils.py:185-186 | Every slice but the last is full; the last has 1 to `size` elements |
| Batches.ChunksAt | persephone/utils.py:185-186 | Slice `j` starts at `j*size` inside `paths` and is `paths[j*size : min(j*size+size, len(paths))]` |
| Sparse.TargetListToSparseTensor | persephone/utils.py:42-56 | It fails exactly when every target is empty, since numpy's `max` over an empty index array raises. Otherwise: `vals` is the targets concatenated in order; `indices` is the row-major coordinate list; `shape[0]` is the number of targets; `shape[1]` bounds every target's length and equals some target's length |
| Sparse.Coordinates | persephone/utils.py:51-53 | The `[t_i, seq_i]` pairs the nested loops append, in visiting order; each names an existing target |
| Sparse.CoordinatesLength | persephone/utils.py:49-54 | There are as many coordinates as values |
| Sparse.CoordinatesSound | persephone/utils.py:51-54 | The k-th coordinate `(t_i, seq_i)` is in range, and `targets[t_i][seq_i]` is the k-th value |
| Sparse.CoordinatesRowMajor | persephone/utils.py:51-53 | The coordinates strictly increase in row-major order |
| Sparse.CoordinatesComplete | persephone/utils.py:51-53 | Every label `targets[i][j]` has the coordinate `(i, j)`, at offset `len(concat(targets[:i])) + j` |
| Sparse.ShapeIsLongestTarget | persephone/utils.py:55 | One more than the largest column index is the length of the longest target |
| Padding.ZeroPad | persephone/utils.py:58-69 | It fails exactly when the matrix has more rows than `to_length`. Otherwise the result has `to_length` rows of the same width; its first rows are the matrix's rows and the rest are zero rows |
| Padding.Broadcast | persephone/utils.py:101 | numpy's store of a row into a `width`-wide row gives `width` values. A row already that wide is stored unchanged. Every stored value is a value of the row, so a one-wide row fills the whole row with its value. A zero row stays a zero row |
| Padding.Store | persephone/utils.py:101 | Assigning a padded array into `batch[i]` keeps its row count and gives the batch width. An array that already has the batch width is stored unchanged. Zero rows of the padding stay zero rows |
| Padding.StorePadded | persephone/utils.py:101 | Storing a `zero_pad` result into a batch entry leaves the utterance's rows, broadcast to the batch width, followed by zero rows |
| Padding.LoadBatchX | persephone/utils.py:88-104 | It fails exactly when there are no utterances (`max` of an empty list raises) or when some utterance's width cannot be broadcast to the first one's. Otherwise: there is one length and one batch entry per utterance, in order; length `i` is utterance `i`'s row count; the common padded length is some utterance's row count; every entry is utterance `i` zero-padded to that length and stored at the first utterance's width |
| Builtins.Max | persephone/utils.py:96 | The maximum of a non-empty list is one of its elements and is at least every element |
| Builtins.EndsWithConcat | persephone/utils.py:126 | `s.endswith(suffix)` holds exactly when `s` is some string followed by `suffix`: every `p + suffix` ends with `suffix`, and a string that ends with `suffix` is its front followed by `suffix` |
| Builtins.FirstField | persephone/utils.py:129 | `s.split(".")[0]` is a prefix of `s` without a '.', followed in `s` by a '.' unless it is all of `s` |
| Builtins.Join | persephone/utils.py:129 | `os.path.join(root, name)` ends with `name`. An absolute `name` is the whole result. Otherwise the result extends `root` by `name`, and one separator is inserted exactly when `root` is non-empty and does not already end with one |
| Builtins.LexLeReflexive | persephone/utils.py:130 | Python's order on `str` is reflexive |
| Builtins.LexLeTotal | persephone/utils.py:130 | Any two strings are comparable |
| Builtins.LexLeAntisymmetric | persephone/utils.py:130 | Strings that compare both ways are equal |
| Builtins.LexLeTransitive | persephone/utils.py:130 | The order is transitive |
| Builtins.Insert | persephone/utils.py:130 | Inserting into an ordered list keeps it ordered and adds exactly that element |
| Builtins.SortStrings | persephone/utils.py:130 | `sorted` returns an ordered permutation of its input |
| Builtins.OrderedUnique | persephone/utils.py:130 | Two ordered lists with the same elements are equal, so `sorted`'s result is determined by the multiset of its input |
| Prefixes.Matches | persephone/utils.py:124-129 | The prefixes the nested loops append, in walk order, before sorting; there are at most as many as files |
| Prefixes.GetPrefixes | persephone/utils.py:117-130 | The result is ordered and is a permutation of the prefixes that the loops collect over the walk |
| Prefixes.MatchesSelect | persephone/utils.py:124-129 | The collected prefixes correspond one for one, in walk order, to the files whose name ends with `extension`, duplicates kept; each is `join(root, name.split(".")[0])` of its file, and no other file contributes |
| Prefixes.MatchesAppend | persephone/utils.py:124-129 | Walking two file lists one after the other collects their prefixes one after the other |
| Prefixes.MatchesPermutation | persephone/utils.py:124-130 | Reordering the files found reorders the collected prefixes and nothing else |
| Prefixes.WalkOrderIrrelevant | persephone/utils.py:124-130 | Two walks that find the same files, in any order, give the same sorted result |
| Sizes.GetPrefixLens | persephone/utils.py:132-139 | There is one pair per prefix, in order, holding the prefix and the length `load_batch_x` reports for its feature file |
| Sizes.FilterBySize | persephone/utils.py:152-153 | The comprehension of `filter_by_size` over the pairs: it returns at most one prefix per pair, and nothing when every length exceeds `max_samples` |
| Sizes.FilterBySizeKeeps | persephone/utils.py:141-154 | The result lists, in input order, exactly the prefixes whose length is at most `max_samples`, one per such pair |
| Sizes.NamesAppend | persephone/utils.py:159 | Taking the prefixes of concatenated pair lists concatenates their prefixes |
| Sizes.NamesPermutation | persephone/utils.py:159 | Pairs that are permutations of each other have prefix lists that are permutations of each other |
| Sizes.SortBySize | persephone/utils.py:156-160 | The result is the prefixes of a stable sort of the pairs by length: a permutation of them, ordered by length, with each length's pairs in their input order. In particular the result is a permutation of the input prefixes |
| Sizes.SortByLength | persephone/utils.py:158 | The in-place sort leaves the array stably sorted by length relative to its old contents |
| Sizes.SinkLast | persephone/utils.py:158 | One insertion step orders one more element by length, leaves the elements after it unchanged, and keeps the array a stable reordering of its input |
| Sizes.StablySortedUnique | persephone/utils.py:158 | A stable sort by length has only one possible result |
| Sizes.ByLengthUnique | persephone/utils.py:158 | Two length-ordered lists with the same pairs of each length, in the same order, are equal |

## Left out

- `is_git_directory_clean`: it inspects a git repository through GitPython.
- `wav_length`: it runs the `sox` program and parses its output.
- `is_number`: it delegates to Python's `float` parser.
- `batch_per`: it computes a floating-point error rate with nltk's edit distance, a foreign library.
- `collapse`, and the `flatten`/`time_major` branch of `load_batch_x` that calls it: numpy axis swapping and concatenation.
- `scripts/model.py` is not part of this model: it is TensorFlow training glue.
- `np.load`, `os.walk` and the feature-file paths that `get_prefix_lens` builds are file I/O.
  - They are replaced by input values, as described above.
  - A missing or unreadable file is not modelled.
- Sizes.GetPrefixLens: it takes one array per prefix, so its `requires` that the two lists have the same length stands for "every feature file exists".
- Padding.LoadBatchX: only two-dimensional feature arrays are modelled.
  - Arrays with further trailing dimensions are not.
  - The values are `real`, not 64-bit floating point.
- Padding.ZeroPad: only two-dimensional arrays are modelled. `zero_pad` keeps any trailing dimensions (`matrix.shape[1:]`, line 67), and the model has one, the row width.
- Padding.ZeroPad: the `assert` on line 62 and the `ValueError` on line 66 are one error in the model, as they guard the same condition. The logging call is left out.
- Sizes.SortByLength: Python's list sort is Timsort. The model uses an insertion sort instead. Both are stable, and Sizes.StablySortedUnique shows that any stable sort by length gives the same result.
- Builtins.Join: only POSIX `os.path.join` with `/` as the separator is modelled.
- Sizes.FilterBySizeKeeps: the docstring of `filter_by_size` (lines 143-147) says it sorts the files by length, but the code only filters. The model follows the code.
- Sizes.FilterBySizeKeeps and Sizes.SortBySize take the (prefix, length) pairs that `get_prefix_lens` returns, not the feature directory; Sizes.GetPrefixLens models that step.
