# Image organizer core, modelled in Dafny

`src/extract_to_category.py` is a desktop tool. It gathers the photos of a folder tree
into a staging folder `images`, asks a vision model for a label for each photo, and moves
each photo into a folder named after its label. This project models the deterministic
logic around the model call and proves properties of it:

- **Format sniffing** (`Sniffer`): an ordered table of four magic-byte signatures (JPEG,
  PNG, GIF, BMP) is matched against the first 32 bytes of a file.
- **Size filter** (`SizeFilter`): both sides of a decodable image must reach the
  threshold.
- **Label matching** (`Classifier`):
  - the reply is stripped, lower-cased, and its underscores turned into spaces;
  - the first category, in caller order, whose underscore-to-space form is contained in the
    reply, or contains it, wins;
  - otherwise the result is the literal `"other"`, which is also returned for a missing file
    or a failed call.
- **Staging and sorting** (`Organizer`): `class OutputFolder` holds the staging folder and
  the other folders of the destination root as sets of file names.
  - `ExtractImages` copies qualifying files into staging. Its loop over `ProcessFile`
    resolves name clashes with `_<n>` and counts the successful copies.
  - `SortImagesByCategory` creates the category folders, stages, and lists the staging
    folder.
  - `ClassifyStaged` then moves each listed file into its label's folder under a free
    name, one `SortOne` round at a time, and counts per category. Finally the staging
    folder is removed when a real run that staged at least one file leaves it empty. When
    extraction copies nothing, the sorter returns early (lines 221-222) and the staging
    folder created at line 55 stays, even if it is empty.
- **Empty-folder cleanup** (`Janitor`): the bottom-up walk of a directory tree
  (`Janitor.Walk`, driven by `Janitor.FileTree.CleanupEmptyFolders`) removes every
  subdirectory found empty once its own subdirectories have been handled.
- **Python text primitives** (`Text`): the Python string operations the code relies on,
  stated with their Python meaning. They are `str.strip`, `str.lower`, `os.path.splitext`
  on a base name, `str(n)` and the substring test.

The outside world enters only as inputs:
- a walked file is a `FileRecord` holding its name, its bytes, its decoded dimensions and
  whether its copy succeeds;
- for the i-th listed file, the sorter's `Environment` gives the outcome of the model call
  and whether the move succeeds.

The model follows the code as written, including these points where it behaves differently from what its comments and names suggest:

- **Staged name.** A file keeps its own name in staging whenever it has *any* extension
  (line 86), not only a recognised one. A file sniffed as JPEG but called `x.dat` is
  staged as `x.dat` when that name is free in staging. `ListedIffExtension` shows that
  the sorter never lists it then, so it stays in staging. When `x.dat` is already taken,
  the clash rule renames the copy `x_1.jpg` (or the next free counter), and that name
  is listed and sorted.
- **`.tiff` files.** Extraction trusts `.tiff` (line 51), but the sorter's listing filter
  (line 231) leaves it out (`TiffIsStagedButNotListed`).
- **Labels outside the categories.** The classifier returns `"other"` even when the
  caller's categories lack it. Only `ClassifyWithinCategories`, given that `"other"` is a
  category, proves the label is one. Otherwise `results["other"] += 1` raises, the error
  is swallowed, and the file is not counted (`Counted`).
- **Dry runs.** A dry run is not idempotent. Extraction still copies every qualifying file
  again, under fresh `_<n>` names. `SortImagesByCategory` states that staging is then
  exactly what extraction left, that it keeps the staging folder, and that no existing
  folder changes. Missing category folders are still created, empty (lines 210-212).

## Model

| member | source | states |
|---|---|---|
| Sniffer.Detect | src/extract_to_category.py:17-34 | a type is found exactly when some signature prefixes the header; it is the first such entry in table order, with category "images" and one of jpg, png, gif, bmp |
| Sniffer.GetFileType | src/extract_to_category.py:26-37 | an unreadable file has no type; otherwise the result is the table search on the file's bytes |
| Sniffer.HeaderWindowSuffices | src/extract_to_category.py:30-33 | looking only at the first 32 bytes decides the same as looking at the whole file |
| Sniffer.SignaturesExclusive | src/extract_to_category.py:17-24 | no header matches two signatures, so table order never matters |
| SizeFilter.ValidSizeMeans | src/extract_to_category.py:39-47 | `IsValidImageSize` passes exactly decodable images with width and height both at least the threshold; undecodable ones never pass |
| SizeFilter.ThresholdMonotone | src/extract_to_category.py:44 | an image that passes also passes any lower threshold |
| SizeFilter.ThresholdExamples | src/extract_to_category.py:44 | 800x800 passes 700, 500x500 does not, an undecodable file fails even threshold 0 |
| Text.Strip | src/extract_to_category.py:188 | the result is the piece of the reply between an all-white-space prefix and an all-white-space suffix; it is empty exactly when the reply is all white space, and otherwise neither starts nor ends with white space |
| Text.StripKeeps | src/extract_to_category.py:188 | a string with no white space at either end is unchanged by stripping |
| Text.StripIdempotent | src/extract_to_category.py:188 | stripping twice is stripping once |
| Text.Lower | src/extract_to_category.py:64 | same length; each upper-case letter A-Z becomes the matching lower-case letter a-z, and every other character is kept in place |
| Text.ReplaceChar | src/extract_to_category.py:188 | same length; each position holds the replacement where the original held the replaced character and the original character elsewhere; the replaced character no longer occurs |
| Text.SubstringMeans | src/extract_to_category.py:193 | the recursive `in` test on strings holds exactly when the first string occurs at some position of the second |
| Text.SplitExt | src/extract_to_category.py:63 | stem and extension concatenate to the name; a non-empty extension starts at the last dot and follows a non-dot character; an empty one means no such dot |
| Text.LastIndexOf | src/extract_to_category.py:63 | the result is -1 or the position of the character, and no later position holds it |
| Text.NatToDecimal | src/extract_to_category.py:93 | the numeral is non-empty, all digits, with no leading zero |
| Text.DecimalRoundTrip | src/extract_to_category.py:93 | reading the numeral back gives the number |
| Text.DecimalInjective | src/extract_to_category.py:93 | different counters give different numerals |
| Classifier.NormaliseReply | src/extract_to_category.py:188 | the normalised reply is the stripped reply, position by position, with each underscore a space and every other character lower-cased; so it is no longer than the reply and holds no underscore and no upper-case letter |
| Classifier.NormaliseLabel | src/extract_to_category.py:192 | the label has the category's length, each underscore becomes a space, and every other character of the category stays in place |
| Classifier.CategoryNameMatches | src/extract_to_category.py:188-193 | a reply that is exactly a category's name, with no white space at its ends and no upper-case letter, normalises to that category's label and matches it (the reply "family_photos" matches `family_photos`) |
| Classifier.LabelMatchesMeans | src/extract_to_category.py:192-193 | a category matches exactly when its label occurs in the reply or the reply occurs in its label |
| Classifier.PlainReply | src/extract_to_category.py:188-193 | a reply without white space at its ends, upper-case letters or underscores is left as it is and matches the category of the same name |
| Classifier.FirstMatchingLabel | src/extract_to_category.py:191-195 | the index returned is the first category matching the reply, or the end when none does |
| Classifier.MatchLabel | src/extract_to_category.py:191-197 | the label is the first matching category in caller order, or "other" when none matches; so always a category or "other" |
| Classifier.ClassifyImage | src/extract_to_category.py:154-201 | a missing file or a failed call gives "other"; otherwise the normalised reply is matched |
| Classifier.ClassifyWithinCategories | src/extract_to_category.py:158-201 | when "other" is a category, every label returned is a category |
| Classifier.MissingFileIgnoresInference | src/extract_to_category.py:158-160 | for a missing file the outcome of the call is irrelevant: the label is "other" |
| Classifier.BlankReplyPicksFirst | src/extract_to_category.py:188-195 | an empty or all-white-space reply picks the first category |
| Classifier.AmbiguityFavoursFirst | src/extract_to_category.py:191-195 | a reply matching two categories resolves to whichever is listed first |
| Classifier.DefaultCategoryExamples | src/extract_to_category.py:14 | with the default categories the reply "birthdays" gives "birthdays" and a failed call gives "other" |
| Organizer.ImageFormat | src/extract_to_category.py:63-77 | a known lower-cased extension gives its format without sniffing; any other name gets exactly what the sniffer finds; the format is one of the six |
| Organizer.StagedWith | src/extract_to_category.py:79-103 | one walked file adds one name to staging exactly when it qualifies (an image format, `Qualifies`, and the size filter) and copies; no staged name is lost |
| Organizer.StagedAfterGrows | src/extract_to_category.py:49-129 | after the whole walk staging still holds every earlier name and has gained exactly one name per file counted |
| Organizer.CountStaged | src/extract_to_category.py:98-101 | at most one staged file per walked file |
| Organizer.CountStagedStep | src/extract_to_category.py:98-101 | each walked file adds one exactly when it qualifies and copies |
| Organizer.StagedName | src/extract_to_category.py:86 | a name with any extension is kept; an extension-less one gets "." and the format appended |
| Organizer.SuffixedInjective | src/extract_to_category.py:93-95 | different counters give different candidate names |
| Organizer.SuffixedDiffers | src/extract_to_category.py:257-262 | no candidate equals the name it replaces |
| Organizer.TakenSuffixesBound | src/extract_to_category.py:92-94 | k taken candidates mean at least k taken names, so the counter loop ends |
| Organizer.FirstFreeUnique | src/extract_to_category.py:92-94 | only one counter is the smallest free one |
| Organizer.FreeSuffixFrom | src/extract_to_category.py:92-94 | counting up from any counter below which every candidate is taken reaches the smallest free counter |
| Organizer.ClashFree | src/extract_to_category.py:88-95 | the name chosen is free, and it is the wanted name when that is free and otherwise the candidate with the smallest free counter |
| Organizer.ResolvesToUnique | src/extract_to_category.py:88-95 | any name the clash rule admits is the one `ClashFree` chooses: the rule has one outcome |
| Organizer.FirstFreeSuffix | src/extract_to_category.py:92-94 | the counter returned is the smallest from 1 whose candidate is free |
| Organizer.StagingName | src/extract_to_category.py:86-96 | the staged name is free; it is the wanted name if free, else stem_n.format with the smallest free n; so it is `StagingNameOf` the folder |
| Organizer.DestinationName | src/extract_to_category.py:254-262 | the destination is free; it is the file's own name if free, else stem_n plus the original extension with the smallest free n; so it is `DestinationOf` the folder |
| Organizer.ListedIffExtension | src/extract_to_category.py:229-231 | a name with an extension is listed (`IsListed`) exactly when its lower-cased extension is one of the five listed ones |
| Organizer.TiffIsStagedButNotListed | src/extract_to_category.py:229-231 | a .tiff file, which extraction stages, is never listed for sorting |
| Organizer.Distinct | src/extract_to_category.py:237 | the dictionary's keys: no duplicates, the same members as the categories |
| Organizer.ZeroCounts | src/extract_to_category.py:237 | keys are exactly the categories, all counts zero |
| Organizer.TotalZero | src/extract_to_category.py:221-234 | a zero-filled result sums to zero |
| Organizer.TotalIncrement | src/extract_to_category.py:267 | raising one category's count by one raises the total by one |
| Organizer.CountedWhenFoldersExist | src/extract_to_category.py:250-267 | with "other" among the categories and every category folder present, the label (`LabelOf`) is a category, a file is counted (`Counted`) exactly when the run is dry or its move succeeds, and in a real run exactly when it is moved (`MovedAt`) |
| Organizer.Tally | src/extract_to_category.py:264-270 | a category's count after n files is at most n |
| Organizer.Tallies | src/extract_to_category.py:237-270 | the result map after n files has exactly the categories as keys |
| Organizer.TalliesExact | src/extract_to_category.py:237-270 | a map with the categories as keys and each category's tally as its value is the result map |
| Organizer.TalliesTotalStep | src/extract_to_category.py:264-270 | each file adds at most one to the total |
| Organizer.TalliesTotal | src/extract_to_category.py:240-270 | the counts add up to at most the number of listed files |
| Organizer.DryRunCountsEveryFile | src/extract_to_category.py:264-267 | in a dry run with "other" among the categories, the counts add up to exactly the number of listed files |
| Organizer.MovedNamesStep | src/extract_to_category.py:240-266 | the moved files grow by exactly the current file when it is moved, and it was not moved before |
| Organizer.WithFolders | src/extract_to_category.py:210-212 | after creating the category folders there is a folder for each old folder and each category; a new one is empty and an existing one keeps its files |
| Organizer.SortedFoldersGrow | src/extract_to_category.py:240-270 | sorting keeps the set of folders, no folder loses a file, and a dry run changes no folder |
| Organizer.SortedFoldersCount | src/extract_to_category.py:264-267 | in a real run each category folder gains exactly as many files as that category's count |
| Organizer.JpgSplit | src/extract_to_category.py:63-64 | a dot-free stem with ".jpg" splits at that dot and has extension ".jpg" |
| Organizer.ExtractionExample | src/extract_to_category.py:79-101 | of an 800x800 and a 400x400 JPEG with threshold 512, exactly one is staged |
| Organizer.SortingExample | src/extract_to_category.py:250-267 | a reply "birthdays" with categories birthdays, other and a successful move counts one under birthdays and none under other |
| Organizer.OutputFolder.MakeDirs | src/extract_to_category.py:210-212 | the folder exists afterwards with its files unchanged, and nothing else changes |
| Organizer.OutputFolder.ProcessFile | src/extract_to_category.py:60-103 | a file is copied exactly when it is an image candidate, passes the size filter and the copy succeeds; staging becomes `StagedWith` the file, so it gains exactly the name the clash rule picks and loses nothing; no other folder changes |
| Organizer.OutputFolder.ExtractImages | src/extract_to_category.py:49-129 | the staging folder exists and is `StagedAfter` the walk: each file's name chosen against the names staged before it; the count returned is the number of qualifying, successfully copied files, exactly how many names staging gains; no other folder changes |
| Organizer.OutputFolder.ListStaged | src/extract_to_category.py:229-231 | the listing holds exactly the staged files with a listed ending, each once |
| Organizer.OutputFolder.MoveFile | src/extract_to_category.py:266 | the file leaves staging and its new name joins the target folder |
| Organizer.OutputFolder.SortOne | src/extract_to_category.py:241-270 | one file: its category's count goes up exactly when it is counted; it leaves staging exactly when moved, and then its label's folder gains exactly the name `DestinationOf` that folder and no other folder changes; a dry run changes nothing |
| Organizer.OutputFolder.ClassifyStaged | src/extract_to_category.py:237-270 | each count is that category's tally; staging loses exactly the moved files; the folders become `SortedFolders`, each moved file added to its label's folder under its clash-free name in listing order |
| Organizer.OutputFolder.MakeCategoryDirs | src/extract_to_category.py:210-212 | the folders become `WithFolders` the categories; staging is untouched |
| Organizer.OutputFolder.SortListed | src/extract_to_category.py:237-278 | the result is the tally map over the listing; the folders are sorted as `SortedFolders` says; staging keeps exactly the unmoved files, and is removed when a real run with files extracted leaves it empty |
| Organizer.OutputFolder.SortStaged | src/extract_to_category.py:220-278 | with nothing extracted nothing is listed; otherwise the listing is exactly the staged files with a listed ending, each once; the remaining staged files, the staging folder's removal, the folders and the result map are as for `SortListed`; the total is at most the number listed |
| Organizer.OutputFolder.SortImagesByCategory | src/extract_to_category.py:203-283 | the listing is exactly the files `StagedAfter` the walk with a listed ending; staging keeps exactly the unmoved ones and is removed exactly when a real run that extracted something leaves it empty; the folders are the category folders after `SortedFolders`; the result is the tally map, all zero when nothing is listed, with a total at most the number listed; in a real run each category folder gains exactly its count; a dry run moves nothing and keeps staging |
| Janitor.Walk | src/extract_to_category.py:287-295 | the walk leaves the pruned tree and removes the directories of `Removed` in that order |
| Janitor.EmptyIffNoFiles | src/extract_to_category.py:291 | a subdirectory is empty after its own walk exactly when its subtree holds no file |
| Janitor.RemovedStrictlyBelow | src/extract_to_category.py:287-289 | every removed directory lies strictly below the start, so the root is never removed |
| Janitor.RemovedDeepestFirst | src/extract_to_category.py:287 | no directory is removed before a removed directory beneath it |
| Janitor.RemovedExactly | src/extract_to_category.py:285-295 | a path is in `Removed` exactly when it names a directory strictly below the root whose subtree holds no file |
| Janitor.PrunedKeeps | src/extract_to_category.py:285-295 | in the `Pruned` tree the root and every directory with a file below it remain at the same path with the same files |
| Janitor.PrunedIsClean | src/extract_to_category.py:285-295 | afterwards no subdirectory without files remains |
| Janitor.CleanFixed | src/extract_to_category.py:285-295 | cleaning a clean tree changes nothing |
| Janitor.CleanupIdempotent | src/extract_to_category.py:285-295 | cleaning twice gives the same tree as cleaning once |
| Janitor.FileTree.CleanupEmptyFolders | src/extract_to_category.py:285-295 | the tree becomes the pruned tree and the removals are listed in the order they happen |

## Left out

- The Tk interface and its worker thread (`ImageOrganizerGUI`, lines 298-419) are user interface and concurrency.
- The model call itself (`ollama.chat`, lines 179-187) is a network call. Its outcome is the `Inference` input. The prompt text (lines 165-177) and the model name have no effect on the logic.
- `encode_image_to_base64` (lines 131-152) wraps an image library and is never called on the classification path.
- Image decoding (lines 42-43) is represented only by its result, the optional dimensions of a `FileRecord`.
- The outcomes of `shutil.copy2` and `shutil.move` are inputs: `copyOk` and `Environment.moveOk`. A move into a folder that does not exist is treated as failing. Metadata preservation is not modelled.
- The progress callback, its floating-point percentage (line 244), `total_files` and every printed message are reporting only.
- Organizer.OutputFolder.ExtractImages: the walk is given as a sequence of `FileRecord` values, so its order is not modelled. The model does not capture a walk that reaches the output folders, which happens when no separate destination is given.
- Organizer.OutputFolder.ListStaged: `os.listdir` order is unspecified, so the model picks files in an arbitrary order.
- The staging folder holds only files, and every other folder directly under the destination root is a set of file names. Symlinks, nested folders in the output and file-system errors outside copy and move are not modelled.
- Organizer.OutputFolder.SortImagesByCategory: requires that no category is named `images`. Such a category folder would be the staging folder itself.
- The re-checks that the staging folder exists (lines 226-227) and that a listed file exists (lines 247-248) cannot fail in this sequential model, so they have no branch.
- The sniffer's category test (line 79) always succeeds, because the only category in the table is "images".
- Text.Lower: lower-cases ASCII letters only, unlike Python's full Unicode `str.lower`.
- Text.SplitExt: models `os.path.splitext` on base names only, with no directory separators.
- Janitor.Walk: a failing `rmdir` (lines 294-295) is not modelled. The directory tree is a value, and sibling names are assumed unique where the theorems say so.
