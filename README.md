# Star tracker core, modelled in Dafny

This project models the deterministic core of a star tracker and proves what it promises. The tracker turns a camera image into bright blobs and matches triangles of those stars against a database of catalogue star pairs. The core it models covers:

- **Containers.** The fixed-capacity `ArrayList` (push, pop, set, insertion sort, sorted `slot`), the growable vector list, and the `List` helpers `pop`, `find_match` and `remove_diff`.
- **Bit packing.** The `WordList`, which packs pixels as nibbles into 64-bit words.
- **Images.** The `ImageBasic`, `ImageWord` and `ImageCropped` views: reset, histogram, copying, and the threshold filters.
- **Blob extraction.** The grass-fire flood fill, which consumes each lit pixel as it adds it to a blob.
- **Star combinatorics.** Star pairs and star triangles, and the triangle iterator's three-index odometer and pilot search.
- **Chunk iterators.** The order in which the database search visits regions of the sky, and the region test.
- **The pair database.** `find_star`, `trim_range` and the close-pair search over the k-vector.
- **The k-vector.** A line from angular distance to bin, and the table of where each bin starts.
- **Database generation.** The catalogue filters: magnitude band, double stars and crowded regions.
- **Geometry.** The specularity (mirror-image) test, the angle-unit conversions, and the fixed-size `Matrix` operations.
- **The Java preprocessor.** The older catalogue preprocessor and its binary search tree.

Each source file becomes one Dafny module.

- **Objects the source changes in place become classes.** Examples are the lists, images, matrices, the triangle iterator, the chunk iterators and the Java `Tree`. Their methods are proved against functions of their contents.
- **Pure code becomes functions and lemmas.** Examples are the star pairs, the specularity test, the k-vector line and the unit conversions.
- **Loops become Dafny loops.** A loop in the source is a `while` or `for` loop with invariants, specified by a recursive function.
- **Numbers.** `Decimal` is `real` and `usize` is `nat`. The 64-bit word of `WordList` is its 64 bits, and `as usize` casts saturate where the source depends on them.
- **Parameters stand in for code outside the model.** These are the angular distance between two positions, a star set's angle, and the CSV split and number parsing.

## Model

| member | source | states |
|---|---|---|
| Angles.DegreesToRadians | star_tracker_lib/src/util/units/angles.rs:16-25 | 180 degrees is pi radians; the conversion keeps the sign and zero of the angle |
| Angles.RadiansToDegrees | star_tracker_lib/src/util/units/angles.rs:55-59 | pi radians is 180 degrees; sign and zero are kept |
| Angles.DegreesToHours | star_tracker_lib/src/util/units/angles.rs:28-31 | a full turn of 360 degrees is 24 hours; sign and zero are kept |
| Angles.HoursToDegrees | star_tracker_lib/src/util/units/angles.rs:105-108 | 24 hours is 360 degrees; sign and zero are kept |
| Angles.RadiansToHours | star_tracker_lib/src/util/units/angles.rs:61-64 | pi radians is 12 hours; sign and zero are kept |
| Angles.HoursToRadians | star_tracker_lib/src/util/units/angles.rs:98-101 | 12 hours is pi radians; sign and zero are kept |
| Angles.DegreesRadiansRoundTrip | star_tracker_lib/src/util/units/angles.rs:16-59 | degrees to radians and back is the identity, in both directions |
| Angles.DegreesHoursRoundTrip | star_tracker_lib/src/util/units/angles.rs:28-108 | degrees to hours and back is the identity, in both directions |
| Angles.RadiansHoursRoundTrip | star_tracker_lib/src/util/units/angles.rs:61-101 | radians to hours and back is the identity, in both directions |
| Angles.ConversionsCommute | star_tracker_lib/src/util/units/angles.rs:28-108 | converting directly gives the same value as converting through radians |
| Angles.Fract | star_tracker_lib/src/util/units/angles.rs:86-95 | the fractional part keeps the sign of its argument, has magnitude below 1, and adds to the truncated integer part to give the argument |
| Angles.HoursPart | star_tracker_lib/src/util/units/angles.rs:83 | the hour component is the floor: at most the angle and within one hour below it |
| Angles.MinutesPart | star_tracker_lib/src/util/units/angles.rs:86-89 | the minute component is a whole number in [0, 60) and is the floor of 60 times the magnitude of the fractional hour |
| Angles.SecondsPart | star_tracker_lib/src/util/units/angles.rs:92-95 | the second component lies in [0, 60) |
| Angles.HoursMinutesSecondsSum | star_tracker_lib/src/util/units/angles.rs:81-96 | for a non-negative angle, hours + minutes/60 + seconds/3600 gives the angle back |
| Angles.NegativeHoursSplit | star_tracker_lib/src/util/units/angles.rs:83-95 | for -1.25 h the split is (-2 h, 15 min, 0 s), which does not add back to -1.25 h |
| ArrayLists.ArrayList.constructor | star_tracker_lib/src/util/list/array_list.rs:25-33 | a new list is empty and owns a buffer of the requested capacity |
| ArrayLists.ArrayList.Capacity | star_tracker_lib/src/util/list/array_list.rs:90-93 | the capacity is never below the number of elements held |
| ArrayLists.ArrayList.Size | star_tracker_lib/src/util/list/array_list.rs:111-114 | the size is the number of elements held |
| ArrayLists.ArrayList.IsFull | star_tracker_lib/src/util/list/array_list.rs:132-135 | full exactly when the size equals the capacity |
| ArrayLists.ArrayList.IsEmpty | star_tracker_lib/src/util/list/array_list.rs:152-155 | empty exactly when no element is held |
| ArrayLists.ArrayList.Get | star_tracker_lib/src/util/list/array_list.rs:170-174 | returns the element at the index |
| ArrayLists.ArrayList.Set | star_tracker_lib/src/util/list/array_list.rs:191-199 | an index below the size is overwritten and nothing else changes; any other index is an out-of-bounds error that leaves the list alone |
| ArrayLists.ArrayList.PushBack | star_tracker_lib/src/util/list/array_list.rs:219-228 | appends when there is room; on a full list returns an invalid-size error and leaves the list alone |
| ArrayLists.ArrayList.PopBack | star_tracker_lib/src/util/list/array_list.rs:247-255 | removes and returns the last element; on an empty list returns an invalid-size error |
| ArrayLists.ArrayList.Clear | star_tracker_lib/src/util/list/array_list.rs:272-275 | the list is left empty |
| ArrayLists.ArrayList.SortOrder | star_tracker_lib/src/util/list/array_list.rs:298-312 | the contents become the insertion sort of the old contents, which is a permutation ordered by the comparator (Sorting.InsertionSortPermutes, Sorting.InsertionSortOrdered) |
| ArrayLists.ArrayList.ShiftIn | star_tracker_lib/src/util/list/array_list.rs:302-310 | one pass of the sort: element ii is inserted from the back into the sorted prefix before it, the rest of the buffer is untouched |
| ArrayLists.ArrayList.Slot | star_tracker_lib/src/util/list/array_list.rs:356-392 | reports success exactly when some element belongs after the new one or there is room; the new element goes in front of the first element it belongs before, dropping the last element of a full list |
| ArrayLists.ArrayList.PlaceAt | star_tracker_lib/src/util/list/array_list.rs:361-379 | the element is inserted at the index and the rest move one place right; on a full list the last element falls off |
| ArrayLists.ArrayList.ShiftRight | star_tracker_lib/src/util/list/array_list.rs:363-372 | the get/set loop moves every element from the index one place right and hands back the one carried past the end |
| Sorting.FirstAfter | star_tracker_lib/src/util/list/array_list.rs:358-362 | the first index whose element the new one belongs before; nothing earlier is after it |
| Sorting.InsertBackShift | star_tracker_lib/src/util/list/array_list.rs:305-308 | moving one element right while the comparator holds keeps the view of the insertion the same |
| Sorting.InsertBackStop | star_tracker_lib/src/util/list/array_list.rs:305-310 | when the comparator fails the element stops where it is |
| Sorting.SortStep | star_tracker_lib/src/util/list/array_list.rs:300-311 | each pass of the outer loop extends the sorted prefix by one element |
| Sorting.InsertBackPermutes | star_tracker_lib/src/util/list/array_list.rs:302-310 | inserting from the back adds exactly the new element |
| Sorting.InsertBackOrdered | star_tracker_lib/src/util/list/array_list.rs:302-310 | inserting from the back into an ordered sequence keeps it ordered, for a strict weak order |
| Sorting.InsertionSortPermutes | star_tracker_lib/src/util/list/array_list.rs:298-312 | the sorted list is a permutation of the input |
| Sorting.InsertionSortOrdered | star_tracker_lib/src/util/list/array_list.rs:298-312 | the sorted list is ordered by the comparator, for a strict weak order |
| Sorting.SlottedOrdered | star_tracker_lib/src/util/list/array_list.rs:356-392 | slotting into an ordered list adds exactly the new element and keeps the list ordered |
| Sorting.SlottedBeforeRest | star_tracker_lib/src/util/list/array_list.rs:358-362 | nothing behind the slot belongs before the new element |
| Sorting.SlottedElements | star_tracker_lib/src/util/list/array_list.rs:356-392 | slotting grows the list by one and adds nothing but the new element |
| Sorting.PrefixOrdered | star_tracker_lib/src/util/list/array_list.rs:374-377 | dropping the tail of an ordered list (a full list loses its last element) keeps it ordered |
| VecLists.VecList.constructor | src/util/list/vec.rs:7-16 | a new vector is empty |
| VecLists.VecList.Capacity | src/util/list/vec.rs:18-21 | the capacity of a vector is the largest usize |
| VecLists.VecList.Size | src/util/list/vec.rs:25-28 | the size is the number of elements |
| VecLists.VecList.IsFull | src/util/list/vec.rs:32-35 | a vector never reports itself full |
| VecLists.VecList.IsEmpty | src/util/list/vec.rs:39-42 | empty exactly when there are no elements |
| VecLists.VecList.Get | src/util/list/vec.rs:46-49 | the result is the element stored at the index |
| VecLists.VecList.Set | src/util/list/vec.rs:53-61 | an index below the size is overwritten; any other index is an out-of-bounds error that changes nothing |
| VecLists.VecList.PushBack | src/util/list/vec.rs:65-73 | appends below the usize capacity, otherwise an invalid-size error that changes nothing |
| VecLists.VecList.PopBack | src/util/list/vec.rs:78-85 | removes and returns the last element; an empty vector gives an invalid-size error |
| VecLists.VecList.Clear | src/util/list/vec.rs:90-93 | the vector is left empty |
| VecLists.VecList.SortOrder | src/util/list/vec.rs:112-126 | the elements become their insertion sort, a permutation ordered by the comparator |
| VecLists.VecList.ShiftIn | src/util/list/vec.rs:116-124 | one pass of the sort inserts element ii into the sorted prefix from the back and leaves the rest alone |
| VecLists.VecList.Slot | src/util/list/vec.rs:162-186 | always succeeds, and the new element lands in front of the first element it belongs before |
| ListOps.Without | star_tracker_lib/src/util/list/mod.rs:212-222 | the list without the element at the index, the others in their order |
| ListOps.AnyMatch | star_tracker_lib/src/util/list/mod.rs:295-302 | true exactly when the comparison relates the element to some element of the other list |
| ListOps.MatchRowCounts | star_tracker_lib/src/util/list/mod.rs:258-264 | one inner pass of find_match copies only the element, at most once per element of the second list, and at least once exactly when it matches something |
| ListOps.KeptSound | star_tracker_lib/src/util/list/mod.rs:290-312 | remove_diff keeps exactly the elements that match something in the other list, and never grows the list |
| ListOps.AllMatchesSound | star_tracker_lib/src/util/list/mod.rs:253-267 | find_match only outputs elements of the first list that match something in the second |
| ListOps.AllMatchesBound | star_tracker_lib/src/util/list/mod.rs:253-267 | find_match outputs at most one element per pair of positions |
| ListOps.Truncate | star_tracker_lib/src/util/list/mod.rs:260-263 | the first n elements, or all when there are fewer: what a fixed-capacity output keeps |
| ListOps.TruncateAppend | star_tracker_lib/src/util/list/mod.rs:260-263 | appending to a cut output and cutting again is the same as cutting once |
| ListOps.TruncateFull | star_tracker_lib/src/util/list/mod.rs:260-263 | once the output is full, nothing more gets in |
| ListOps.Pop | star_tracker_lib/src/util/list/mod.rs:205-225 | an empty list gives an invalid-size error, an index past the end an out-of-bounds error, both leaving the list alone; otherwise the element at the index is returned and removed, the rest keeping their order |
| ListOps.FindMatch | star_tracker_lib/src/util/list/mod.rs:253-267 | always succeeds, and the output becomes its old contents followed by every element of the first list once per match in the second, cut at its capacity |
| ListOps.MatchOne | star_tracker_lib/src/util/list/mod.rs:258-264 | the inner loop appends the element once per match, while there is room |
| ListOps.AnyMatchIn | star_tracker_lib/src/util/list/mod.rs:295-302 | the inner loop of remove_diff decides to keep the element exactly when it matches something |
| ListOps.RemoveDiff | star_tracker_lib/src/util/list/mod.rs:290-312 | the list becomes the subsequence of its elements that match something in the other list |
| ListOps.KeepOrDrop | star_tracker_lib/src/util/list/mod.rs:295-310 | one step of remove_diff either moves past a matching element or pops a non-matching one, keeping the kept prefix followed by the unprocessed rest |
| Images.ImageBasic.constructor | star_tracker_lib/lib/image_processing/mod.rs:148-152 | a new image has the requested size and every pixel black |
| Images.ImageBasic.Width | star_tracker_lib/lib/image_processing/image.rs:32 | the width is the number of columns of the pixel grid |
| Images.ImageBasic.Height | star_tracker_lib/lib/image_processing/image.rs:37 | the height is the number of rows of the pixel grid |
| Images.ImageBasic.Set | star_tracker_lib/lib/image_processing/image.rs:27 | the pixel takes the value and every other pixel is unchanged |
| Images.ImageBasic.Pixels | star_tracker_lib/lib/image_processing/image.rs:21 | the rows of the image, each the image's width, each pixel what `get` reads |
| Images.ImageBasic.Reset | star_tracker_lib/lib/image_processing/image.rs:59-68 | every pixel becomes 0 |
| Images.ImageBasic.Histogram | star_tracker_lib/lib/image_processing/image.rs:108-127 | an empty or over-256-bar histogram is an invalid-size error that leaves it alone; otherwise every bar grows by the number of pixels whose value falls in it, and the total grows by width times height |
| Images.ImageBasic.CountRows | star_tracker_lib/lib/image_processing/image.rs:117-124 | the two loops add each row's counts to the bars, and width times height to the total |
| Images.ImageBasic.HistogramRow | star_tracker_lib/lib/image_processing/image.rs:119-123 | the inner loop adds the counts of one row to the bars, and the width to the total |
| Images.ImageBasic.CopyFrom | star_tracker_lib/lib/image_processing/image.rs:163-179 | images of different sizes give an invalid-size error and nothing changes; otherwise the image becomes a copy of the other |
| Images.ImageBasic.Bits | star_tracker_lib/lib/image_processing/image.rs:183 | a byte image has 8 bits per pixel |
| Images.Bar | star_tracker_lib/lib/image_processing/image.rs:116-121 | the bar of a value is one of the histogram's bars |
| Images.RowCount | star_tracker_lib/lib/image_processing/image.rs:119-123 | a row puts at most its length into any one bar |
| Images.RowCountStep | star_tracker_lib/lib/image_processing/image.rs:121-122 | one more pixel adds one to its own bar and nothing to the others |
| Images.CountPixel | star_tracker_lib/lib/image_processing/image.rs:121-122 | incrementing the pixel's bar extends the counts by that pixel |
| Images.CountRow | star_tracker_lib/lib/image_processing/image.rs:117-124 | the counts of one more row extend the grid counts by that row |
| Images.GridCountStep | star_tracker_lib/lib/image_processing/image.rs:117-124 | a grid's count in a bar is the sum of its rows' counts |
| Images.AreaProduct | star_tracker_lib/lib/image_processing/image.rs:117-124 | counting row by row gives rows times width pixels |
| Images.SumIncrement | star_tracker_lib/lib/image_processing/image.rs:122 | incrementing one bar increments the total by one |
| Images.FullHistogramBar | star_tracker_lib/lib/image_processing/image.rs:116-121 | with 256 bars each value is its own bar |
| Images.FullRowCount | star_tracker_lib/lib/image_processing/mod.rs:140-146 | with 256 bars, bar v counts exactly the pixels equal to v |
| Images.Threshold | star_tracker_lib/lib/image_processing/mod.rs:320-323 | a pixel is kept or blanked, and kept exactly when it reaches the foreground level (or is already 0) |
| Images.Binarise | star_tracker_lib/lib/image_processing/mod.rs:338-345 | a pixel becomes 0 or 255, and 255 exactly when it reaches the foreground level |
| Images.ThresholdIdempotent | star_tracker_lib/lib/image_processing/mod.rs:313-348 | thresholding twice is thresholding once, and binarising a thresholded pixel is binarising the original |
| Images.Apply | star_tracker_lib/lib/image_processing/mod.rs:313-326 | every pixel becomes its threshold against the foreground level at its position |
| Images.ApplyBin | star_tracker_lib/lib/image_processing/mod.rs:331-348 | every pixel becomes 0 or 255 against the foreground level at its position |
| Images.ImageBasic.ValidPixel | star_tracker_lib/lib/image_processing/image.rs:76-77 | a valid pixel indexes inside the pixel grid, row by y and column by x |
| Images.ImageBasic.Get | star_tracker_lib/lib/image_processing/image.rs:21 | the value stored at row y, column x of the grid |
| ImageCrops.Padding | star_tracker_lib/src/image_processing/image_cropped.rs:58-59 | the padding is a quarter of the fake size rounded up: four paddings cover the size and overshoot it by less than 4 |
| ImageCrops.ImageCropped.constructor | star_tracker_lib/src/image_processing/image_cropped.rs:36-43 | wraps the inner image with the given fake size |
| ImageCrops.ImageCropped.Inner | star_tracker_lib/src/image_processing/image_cropped.rs:61-64 | a fake pixel inside the window maps to a valid pixel of the inner image |
| ImageCrops.ImageCropped.Set | star_tracker_lib/src/image_processing/image_cropped.rs:76-86 | inside the window the inner pixel takes the value and reads back as it; outside, nothing changes and the pixel reads 0; no other inner pixel changes |
| ImageCrops.ImageCropped.Width | star_tracker_lib/src/image_processing/image_cropped.rs:93 | the width reported is the fake width |
| ImageCrops.ImageCropped.Height | star_tracker_lib/src/image_processing/image_cropped.rs:99 | the height reported is the fake height |
| ImageCrops.InnerShowsThrough | star_tracker_lib/src/image_processing/image_cropped.rs:56-70 | every inner pixel reads back at its position shifted by the padding |
| ImageCrops.PaddingIsBlack | star_tracker_lib/src/image_processing/image_cropped.rs:56-70 | every fake pixel outside the window reads 0 |
| ImageWords.Stored | star_tracker_lib/src/image_processing/image_word.rs:140-158 | a byte written into an n-bit nibble reads back below 2^n |
| ImageWords.CopyExactAtByteDepth | star_tracker_lib/src/image_processing/image_word.rs:173-198 | copying into an 8-bit image keeps every value exactly |
| ImageWords.CopyKeepsTopBits | star_tracker_lib/src/image_processing/image_word.rs:180-194 | copying into an image of 1 to 8 bits keeps the top bits of each value: it reads back as the value divided by 2^(8-bits) |
| ImageWords.StoredValue | star_tracker_lib/src/image_processing/image_word.rs:152-158 | the word written for a byte, masked to the nibble, reads back as the stored value |
| ImageWords.ReadBack | star_tracker_lib/src/image_processing/image_word.rs:140-146 | a nibble holding the low bits of a value reads back, cast to a byte, as the stored value |
| ImageWords.PixelIndexBound | star_tracker_lib/src/image_processing/image_word.rs:144 | the nibble of a pixel of the image lies inside width times height nibbles |
| ImageWords.PixelIndexDistinct | star_tracker_lib/src/image_processing/image_word.rs:144 | distinct pixels map to distinct nibbles |
| ImageWords.ImageWord.constructor | star_tracker_lib/src/image_processing/image_word.rs:103-128 | the creation macro allocates as many zeroed words as the word list needs for width times height nibbles |
| ImageWords.ImageWord.Width | star_tracker_lib/src/image_processing/image_word.rs:163 | the width is the image size's x |
| ImageWords.ImageWord.Height | star_tracker_lib/src/image_processing/image_word.rs:167 | the height is the image size's y |
| ImageWords.ImageWord.Bits | star_tracker_lib/src/image_processing/image_word.rs:202 | the bits per pixel are the nibble width |
| ImageWords.ImageWord.Set | star_tracker_lib/src/image_processing/image_word.rs:152-158 | the pixel reads back as the value cut to the nibble width and no other pixel changes |
| ImageWords.ImageWord.CopyFrom | star_tracker_lib/src/image_processing/image_word.rs:173-198 | images of different sizes give an invalid-size error and nothing changes; otherwise every pixel reads back as the source pixel shifted by the difference in bit depth, cut to the nibble |
| ImageWords.ImageWord.CopyColumn | star_tracker_lib/src/image_processing/image_word.rs:182-195 | the inner loop copies one column that way and leaves the other columns unchanged |
| ImageWords.Shifted | star_tracker_lib/src/image_processing/image_word.rs:180-194 | at 8 bits the value is copied unchanged, and at fewer bits it is never larger |
| ImageWords.PixelIndex | star_tracker_lib/src/image_processing/image_word.rs:144 | pixel (x, y) lands in the stretch of nibbles for row y |
| ImageWords.ImageWord.Get | star_tracker_lib/src/image_processing/image_word.rs:140-146 | a pixel never reads back above its bit depth |
| ImageCrops.ImageCropped.Get | star_tracker_lib/src/image_processing/image_cropped.rs:56-70 | 0 outside the window, and inside it the inner image's pixel shifted back by the padding |
| Words.ToNat | star_tracker_lib/src/util/word.rs:177-187 | the number a 64-bit word stands for is below 2 to the word width |
| Words.NibblesInWord | star_tracker_lib/src/util/word.rs:117-120 | the number of whole nibbles that fit in a word: that many fit and one more does not |
| Words.ArraySize | star_tracker_lib/src/util/word.rs:122-125 | the number of words needed for the nibbles, rounded up: they hold all of them, and one word fewer would not |
| Words.FirstNBits | star_tracker_lib/src/util/word.rs:177-187 | the mask has exactly the bits below n set |
| Words.FirstNBitsValue | star_tracker_lib/src/util/word.rs:177-187 | the mask is (1 << n) - 1 below the word width and usize::MAX otherwise |
| Words.LowOnesValue | star_tracker_lib/src/util/word.rs:181 | a word with its low k bits set stands for 2^k - 1 |
| Words.GetField | star_tracker_lib/src/util/word.rs:168-171 | a field moved down to bit 0 has nothing set above its width |
| Words.WordGet | star_tracker_lib/src/util/word.rs:168-171 | a nibble read from a word has nothing set above the nibble width |
| Words.NibbleBound | star_tracker_lib/src/util/word.rs:157-171 | every nibble of a word ends inside the word, so no shift reaches the word width |
| Words.WordGetSet | star_tracker_lib/src/util/word.rs:157-171 | reading a nibble just written gives the written value cut to the nibble width |
| Words.WordSetOther | star_tracker_lib/src/util/word.rs:157-171 | writing one nibble leaves every other nibble of the word as it was |
| Words.SlotsApart | star_tracker_lib/src/util/word.rs:160 | distinct nibble slots of a word do not overlap |
| Words.FieldGetSet | star_tracker_lib/src/util/word.rs:157-171 | a field read right after it was written holds the value cut to the field width |
| Words.FieldSetOther | star_tracker_lib/src/util/word.rs:157-171 | writing a field leaves every non-overlapping field as it was |
| Words.NibbleValue | star_tracker_lib/src/util/word.rs:162 | the low n bits of a word holding v stand for v modulo 2^n |
| Words.LowBitsValue | star_tracker_lib/src/util/word.rs:170 | masking off the bits from n up keeps the value of the low n bits |
| Words.ToNatFromNat | star_tracker_lib/src/util/word.rs:162 | the low bits of v read back as v modulo the matching power of two |
| Words.WordList.Capacity | star_tracker_lib/src/util/word.rs:122-125 | the list holds as many nibbles as its words times the nibbles per word |
| Words.WordList.constructor | star_tracker_lib/src/util/word.rs:32-59 | the creation macro gives a list of zeroed words, sized so every requested nibble fits |
| Words.WordList.Get | star_tracker_lib/src/util/word.rs:148-153 | a nibble read from the list has nothing set above the nibble width |
| Words.WordList.Set | star_tracker_lib/src/util/word.rs:134-140 | the nibble reads back as the value cut to the nibble width; only the word that holds it changes, and every other nibble keeps its value |
| Words.SlotIndex | star_tracker_lib/src/util/word.rs:136-137 | the slot of a nibble inside its word is below the nibbles per word |
| Words.IndexBound | star_tracker_lib/src/util/word.rs:136 | the word holding a nibble in range lies inside the array |
| Words.SameWordOtherSlot | star_tracker_lib/src/util/word.rs:136-137 | two distinct nibbles in the same word sit in distinct slots of it |
| Blobs.NewBlob | star_tracker_lib/lib/image_processing/blob.rs:21-24 | a new blob has no pixels and no intensity |
| Blobs.CentroidMoment | star_tracker_lib/lib/image_processing/blob.rs:307-313 | the new centroid times the new intensity is the old blob's moment plus the pixel's moment |
| Blobs.DescendingIntensityIsStrictWeak | star_tracker_lib/lib/image_processing/blob.rs:368-369 | "brighter first" is a strict weak order, so the sorting and slotting lemmas apply to it |
| Blobs.DescendingSizeIntensityIsStrictWeak | star_tracker_lib/lib/image_processing/blob.rs:374-377 | "larger intensity times size first" is a strict weak order |
| Blobs.Put | star_tracker_lib/lib/image_processing/blob.rs:186 | the image with one pixel replaced: that row changes at that column only, every other row is kept |
| Blobs.RowWeighUpdate | star_tracker_lib/lib/image_processing/blob.rs:186 | changing one value changes a row's total weight by the difference of the two weights |
| Blobs.WeighUpdate | star_tracker_lib/lib/image_processing/blob.rs:186 | changing one pixel changes the image's total weight by the difference of the two weights |
| Blobs.Neighbours | star_tracker_lib/lib/image_processing/blob.rs:246-280 | between two and four neighbours are tried: right and down always, left and up only away from the edges |
| Blobs.ClearedTrans | star_tracker_lib/lib/image_processing/blob.rs:170-188 | clearing pixels in two stages is clearing them once, and a pixel cleared stays cleared |
| Blobs.ClearedPut | star_tracker_lib/lib/image_processing/blob.rs:186 | blanking a pixel only clears, and leaves that pixel dark |
| Blobs.ShowsPixels | star_tracker_lib/lib/image_processing/image.rs:21 | only one grid of rows shows a given image |
| Blobs.LitOf | star_tracker_lib/lib/image_processing/blob.rs:248-281 | the lit pixels among those tried are no more than those tried |
| Blobs.IfLit | star_tracker_lib/lib/image_processing/blob.rs:248 | a single tried pixel is pushed at most once |
| Blobs.LitOfSound | star_tracker_lib/lib/image_processing/blob.rs:248-281 | a pixel passes the filter exactly when it was tried, lies in the image and reaches the foreground level |
| Blobs.LitOfSplit | star_tracker_lib/lib/image_processing/blob.rs:246-287 | the pixels pushed by consecutive directions are the pushes of each in turn |
| Blobs.LitNeighbours | star_tracker_lib/lib/image_processing/blob.rs:246-287 | the pushed neighbours are the lit ones of right, left, up, down, in that order |
| Blobs.PushIfLit | star_tracker_lib/lib/image_processing/blob.rs:248-254 | a lit pixel is pushed while there is room; a failed push stops with everything the caller would have pushed already cut off at the capacity |
| Blobs.NeighbourSteps | star_tracker_lib/lib/image_processing/blob.rs:246-287 | each direction's push extends what the earlier directions pushed |
| Blobs.FindNeighbours | star_tracker_lib/lib/image_processing/blob.rs:242-288 | the stack becomes its old contents followed by the in-image foreground neighbours, in the order right, left, up, down, cut off once the stack is full; the image is not changed |
| Blobs.Join | star_tracker_lib/lib/image_processing/blob.rs:178-183 | joining a pixel adds one to the size and the pixel's value to the intensity |
| Blobs.JoinAccounts | star_tracker_lib/lib/image_processing/blob.rs:172-187 | consuming a lit pixel moves its count, value and moments from the image into the blob |
| Blobs.JoinCount | star_tracker_lib/lib/image_processing/blob.rs:182-186 | a count that gains the pixel's weight still balances what left the image |
| Blobs.JoinAxis | star_tracker_lib/lib/image_processing/blob.rs:178-181 | the centroid on one axis still carries the moment that left the image |
| Blobs.MomentStep | star_tracker_lib/lib/image_processing/blob.rs:307-313 | updating the centroid with a pixel keeps the blob's moment plus the image's remaining moment constant |
| Blobs.SpreadGrassFire | star_tracker_lib/lib/image_processing/blob.rs:164-190 | leaves the stack empty and only blanks pixels; the blob's size, intensity and centroid moments are exactly the count, values and moments of the pixels it blanked; if the start could be pushed, it ends up blank |
| Blobs.Burn | star_tracker_lib/lib/image_processing/blob.rs:170-188 | one pop of the loop: keeps the accounting between blob and blanked pixels, and either ends with an empty stack or lowers the lit-pixel count and stack size measure |
| Blobs.Consume | star_tracker_lib/lib/image_processing/blob.rs:172-187 | a popped lit pixel: its neighbours are pushed, the blob takes its value and position, the pixel is set to 0 and no other pixel changes |
| Blobs.PushedLit | star_tracker_lib/lib/image_processing/blob.rs:242-288 | everything find_neighbours leaves on the stack was there already or is a lit pixel |
| Blobs.FindBlobs | star_tracker_lib/lib/image_processing/blob.rs:87-117 | the image only loses pixels; every blob added is at least the minimum size; a list in descending intensity stays in descending intensity |
| Blobs.ScanRow | star_tracker_lib/lib/image_processing/blob.rs:93-115 | one row of the checkerboard scan keeps the same three facts |
| Blobs.Visit | star_tracker_lib/lib/image_processing/blob.rs:105-114 | a lit checked pixel starts a grass fire whose blob is slotted only when it reaches the minimum size |
| Blobs.SlotBlob | star_tracker_lib/lib/image_processing/blob.rs:112 | slotting adds only the blob and keeps a descending-intensity list in order |
| Blobs.FindCentroid | star_tracker_lib/lib/image_processing/blob.rs:307-313 | the new centroid lies between the blob's centroid and the pixel's position, and is either one when the other has no intensity |
| Blobs.SortDescendingIntensity | star_tracker_lib/lib/image_processing/blob.rs:368-369 | blobs of equal intensity are never put in front of each other, and a blob goes first only when it has some intensity |
| Blobs.SortDescendingSizeIntensity | star_tracker_lib/lib/image_processing/blob.rs:374-377 | blobs of equal intensity times size are never put in front of each other, and a blob goes first only when it has both size and intensity |
| StarPairs.FindSame | star_tracker_lib/src/tracking_mode/star_pair.rs:34-49 | a shared star is one of both pairs; there is none exactly when neither star of the first pair is in the second; the first pair's first star wins when it is shared |
| StarPairs.HasSameSymmetric | star_tracker_lib/src/tracking_mode/star_pair.rs:70-73 | has_same holds exactly when some star is in both pairs, so it is symmetric |
| StarPairs.AreSameIsUnordered | star_tracker_lib/src/tracking_mode/star_pair.rs:83-91 | are_same is equality of the pairs as unordered multisets, and symmetric |
| StarPairs.FindNot | star_tracker_lib/src/tracking_mode/star_pair.rs:137-148 | none exactly when both stars are the excluded one; otherwise a star of the pair other than it, the first one when it differs |
| StarPairs.IndexOf | star_tracker_lib/src/tracking_mode/star_pair.rs:177-188 | the first index whose pair is the same unordered pair, or none when no pair matches |
| StarTriangles.ConstructTriangle | star_tracker_lib/src/tracking_mode/star_triangle.rs:28-55 | a triangle exactly when all three pairs share stars and the three shared stars differ; its vertices are distinct and each lies in the two pairs it came from |
| StarTriangles.ConstructTriangleOfLoop | star_tracker_lib/src/tracking_mode/star_triangle.rs:34-51 | pairs (i, j), (i, k), (j, k) over distinct stars, each in either order, form the triangle (i, j, k) |
| StarTriangles.ConstructTriangleNeedsThreePairs | star_tracker_lib/src/tracking_mode/star_triangle.rs:42-54 | the same pair given twice never forms a triangle |
| StarTriangles.SearchDatabase | star_tracker_lib/src/tracking_mode/star_triangle.rs:145-157 | succeeds exactly when every vertex is a catalogue index and then gives the three catalogue stars; otherwise a no-match error |
| StarTriangles.SearchList | star_tracker_lib/src/tracking_mode/star_triangle.rs:165-177 | succeeds exactly when every vertex indexes the list and then gives the three list elements; otherwise a no-match error |
| StarTriangles.SearchDatabaseIsCatalogueList | star_tracker_lib/src/tracking_mode/star_triangle.rs:145-177 | searching the database is searching its catalogue as a list |
| StarTriangles.ConstructedVertices | star_tracker_lib/src/tracking_mode/star_triangle.rs:194-197 | a star is a vertex of a constructed triangle exactly when it is in one of the three pairs, and then in two of them |
| StarPairs.Has | star_tracker_lib/src/tracking_mode/star_pair.rs:111-114 | the star is one of the pair's two ends, whichever end |
| StarPairs.HasSame | star_tracker_lib/src/tracking_mode/star_pair.rs:70-73 | the pairs share a star exactly when either end of the first is in the second |
| StarPairs.AreSame | star_tracker_lib/src/tracking_mode/star_pair.rs:83-91 | pairs that are the same hold each other's ends |
| StarTriangles.Has3 | star_tracker_lib/src/tracking_mode/star_triangle.rs:194-197 | the star is one of the triangle's three, whichever position |
| StarTriangleIterators.Step | star_tracker_lib/src/tracking_mode/star_triangle_iterator.rs:214-230 | a advances fastest, then b, then c; from the start or any combination it moves to the combination ranked one higher and reports true exactly while one is left; it reports false whenever a list is empty |
| StarTriangleIterators.TotalZero | star_tracker_lib/src/tracking_mode/star_triangle_iterator.rs:229 | there are no combinations exactly when one of the lists is empty |
| StarTriangleIterators.RankBounds | star_tracker_lib/src/tracking_mode/star_triangle_iterator.rs:214-230 | every combination's rank lies below the product of the list sizes |
| StarTriangleIterators.RankInjective | star_tracker_lib/src/tracking_mode/star_triangle_iterator.rs:214-230 | no two combinations share a rank, so step visits none twice |
| StarTriangleIterators.SplitUnique | star_tracker_lib/src/tracking_mode/star_triangle_iterator.rs:214-230 | writing a number as low digit plus base times quotient is unique |
| StarTriangleIterators.RankOnto | star_tracker_lib/src/tracking_mode/star_triangle_iterator.rs:214-230 | every rank below the product is some combination's, so step misses none |
| StarTriangleIterators.StepA | star_tracker_lib/src/tracking_mode/star_triangle_iterator.rs:217-219 | advancing a moves to the next rank |
| StarTriangleIterators.StepB | star_tracker_lib/src/tracking_mode/star_triangle_iterator.rs:220-223 | wrapping a and advancing b moves to the next rank |
| StarTriangleIterators.StepC | star_tracker_lib/src/tracking_mode/star_triangle_iterator.rs:224-227 | wrapping a and b and advancing c moves to the next rank |
| StarTriangleIterators.StepEnds | star_tracker_lib/src/tracking_mode/star_triangle_iterator.rs:228-229 | wrapping all three happens only after the last combination |
| StarTriangleIterators.RemainingPositive | star_tracker_lib/src/tracking_mode/star_triangle_iterator.rs:214-230 | at a combination at least one is left to visit, so next terminates |
| StarTriangleIterators.NoneCloseStep | star_tracker_lib/src/tracking_mode/star_triangle_iterator.rs:47-57 | a combination that does not close extends the stretch of non-closing combinations before it by one rank |
| StarTriangleIterators.NoneCloseAll | star_tracker_lib/src/tracking_mode/star_triangle_iterator.rs:47-57 | a stretch from the start to the count of combinations covers every combination |
| StarTriangleIterators.RemainingShrinks | star_tracker_lib/src/tracking_mode/star_triangle_iterator.rs:214-230 | moving one rank on leaves fewer combinations to visit, so the search terminates |
| StarTriangleIterators.ExhaustedJoin | star_tracker_lib/src/tracking_mode/star_triangle_iterator.rs:38-45 | kernels used up in two stretches, with the last of the first stretch exhausted, are all exhausted |
| StarTriangleIterators.SearchStep | star_tracker_lib/src/tracking_mode/star_triangle_iterator.rs:38-57 | passing over a combination that does not close keeps the search state: the queued kernels stay a suffix of those it began with, and nothing passed over closes |
| StarTriangleIterators.TotalNonNegative | star_tracker_lib/src/tracking_mode/star_triangle_iterator.rs:229 | the count of combinations is never negative |
| StarTriangleIterators.StarTriangleIterator.Begin | star_tracker_lib/src/tracking_mode/star_triangle_iterator.rs:153-172 | every pair list is cleared, the side and pilot combinations are at (-1, 0, 0), the pilot at -1, no expected triangle, and the tolerance stored |
| StarTriangleIterators.StarTriangleIterator.ResetSides | star_tracker_lib/src/tracking_mode/star_triangle_iterator.rs:163-168 | the side lists are empty and their combination at its start |
| StarTriangleIterators.StarTriangleIterator.ResetPilot | star_tracker_lib/src/tracking_mode/star_triangle_iterator.rs:158-171 | the pilot lists are empty, their combination at its start and the pilot at -1 |
| StarTriangleIterators.StarTriangleIterator.PrepNewKernel | star_tracker_lib/src/tracking_mode/star_triangle_iterator.rs:241-278 | false exactly when nothing is left to prepare, changing nothing; otherwise the next kernel's triangle and side matches are taken and the side combination restarts |
| StarTriangleIterators.StarTriangleIterator.Advance | star_tracker_lib/src/tracking_mode/star_triangle_iterator.rs:38-45 | steps the side combination, preparing kernels while it is used up: found means a valid combination, ranked one higher when the kernel is unchanged and first in a newly prepared kernel; every kernel it prepares and passes over has no combination; not found means every kernel is used up |
| StarTriangleIterators.StarTriangleIterator.NextKernel | star_tracker_lib/src/tracking_mode/star_triangle_iterator.rs:38-45 | prepares kernels until one has a combination and stands on its first, or all are used up; every kernel it leaves behind has no combination |
| StarTriangleIterators.StarTriangleIterator.Continue | star_tracker_lib/src/tracking_mode/star_triangle_iterator.rs:38-57 | one round of the search past a combination that does not close keeps the search state, and uses a kernel up or leaves fewer combinations to visit |
| StarTriangleIterators.StarTriangleIterator.Start | star_tracker_lib/src/tracking_mode/star_triangle_iterator.rs:35-45 | the first step of the search: the combination after the current one, with nothing passed over that closes |
| StarTriangleIterators.StarTriangleIterator.PassOver | star_tracker_lib/src/tracking_mode/star_triangle_iterator.rs:38-57 | stepping past a combination that does not close keeps every passed-over combination, in this and every left kernel, non-closing |
| StarTriangleIterators.StarTriangleIterator.Search | star_tracker_lib/src/tracking_mode/star_triangle_iterator.rs:33-62 | a result is a combination that closes into a triangle with the summed error as weight, and every combination passed over before it (rest of the starting kernel, every kernel left, earlier combinations of the result's kernel) does not close; none means every kernel is used up and nothing passed over closes |
| StarTriangleIterators.StarTriangleIterator.Next | star_tracker_lib/src/tracking_mode/star_triangle_iterator.rs:28-64 | the pilot is reset to -1 and the result recorded as the expected triangle; a result is the first combination after the current one that closes into a triangle (every combination passed over does not close), with the summed error as its weight; none means every kernel is used up and no combination passed over closes |
| StarTriangleIterators.StarTriangleIterator.PrepNewPilot | star_tracker_lib/src/tracking_mode/star_triangle_iterator.rs:287-322 | without an expected triangle, false and nothing moves; otherwise the pilot moves to the next star that is not one of the triangle's inputs, skipping only inputs, and succeeds exactly when that star exists, fetching its matches and restarting the pilot combination |
| ChunkIterators.HalfUp | star_tracker_lib/lib/tracking_mode/database/chunk_iterator.rs:168 | half of n rounded up: twice it is n or n + 1 |
| ChunkIterators.RandomiseParity | star_tracker_lib/lib/tracking_mode/database/chunk_iterator.rs:166-175 | a step below n visits a band below n, and an even band exactly when it is in the first half (rounded up) of the steps |
| ChunkIterators.ParityStepInverts | star_tracker_lib/lib/tracking_mode/database/chunk_iterator.rs:166-175 | the step that visits a band can be recovered from the band |
| ChunkIterators.ParityVisitsEvery | star_tracker_lib/lib/tracking_mode/database/chunk_iterator.rs:166-175 | every band below n is visited by some step below n |
| ChunkIterators.ParityInjective | star_tracker_lib/lib/tracking_mode/database/chunk_iterator.rs:166-175 | two steps below n never visit the same band |
| ChunkIterators.ParityPassVisitsEachOnce | star_tracker_lib/lib/tracking_mode/database/chunk_iterator.rs:220-230 | a full pass of n steps visits each of the n bands exactly once |
| ChunkIterators.RandomiseNone | star_tracker_lib/lib/tracking_mode/database/chunk_iterator.rs:180-183 | step i visits band i |
| ChunkIterators.RaCoversIsWrapped | star_tracker_lib/lib/tracking_mode/database/chunk_iterator.rs:480-493 | for a star in [0, 360) degrees, the wrap-around tests accept it exactly when some turn of its right ascension lies inside the range |
| ChunkIterators.UnknownStarInNoRegion | star_tracker_lib/lib/tracking_mode/database/chunk_iterator.rs:235-251 | a pair with a star outside the catalogue is in no region |
| ChunkIterators.ChunkIteratorNone.constructor | star_tracker_lib/lib/tracking_mode/database/chunk_iterator.rs:74-75 | a new iterator over the database has not started |
| ChunkIterators.ChunkIteratorNone.Begin | star_tracker_lib/lib/tracking_mode/database/chunk_iterator.rs:82 | begin marks the iterator as not started |
| ChunkIterators.ChunkIteratorNone.Next | star_tracker_lib/lib/tracking_mode/database/chunk_iterator.rs:85-90 | true on the first call after begin and false on every later one |
| ChunkIterators.ChunkIteratorNone.SameRegion | star_tracker_lib/lib/tracking_mode/database/chunk_iterator.rs:96 | every pair is in the one region |
| ChunkIterators.ChunkAreaSearch.FromRange | star_tracker_lib/lib/tracking_mode/database/chunk_iterator.rs:431-435 | the area is the given bounds and the iterator has not started |
| ChunkIterators.ChunkAreaSearch.FromPoint | star_tracker_lib/lib/tracking_mode/database/chunk_iterator.rs:438-443 | the area spans the field of view on both axes and is centred on the point |
| ChunkIterators.ChunkAreaSearch.Begin | star_tracker_lib/lib/tracking_mode/database/chunk_iterator.rs:451 | begin marks the iterator as not started |
| ChunkIterators.ChunkAreaSearch.Next | star_tracker_lib/lib/tracking_mode/database/chunk_iterator.rs:454-459 | true on the first call after begin and false on every later one |
| ChunkIterators.ChunkAreaSearch.SameRegion | star_tracker_lib/lib/tracking_mode/database/chunk_iterator.rs:466-496 | a pair is in the area exactly when both stars are catalogued, one lies in the declination range and one in the right-ascension range, including its wrap past 0 or 360 degrees |
| ChunkIterators.CentreInArea | star_tracker_lib/lib/tracking_mode/database/chunk_iterator.rs:438-443 | a pair whose first star is the centre of an area built from a point is in that area |
| ChunkIterators.Band | star_tracker_lib/lib/tracking_mode/database/chunk_iterator.rs:225-227 | the band is centred on the chunk's declination and is the step times the multiplier wide |
| ChunkIterators.ChunkIteratorDeclination.constructor | star_tracker_lib/lib/tracking_mode/database/chunk_iterator.rs:143-160 | stores the band count and step, the size multiplier is 1 plus the overlap, and the index and band start at 0 |
| ChunkIterators.ChunkIteratorDeclination.Begin | star_tracker_lib/lib/tracking_mode/database/chunk_iterator.rs:211-215 | the index goes back to 0 and the band to empty |
| ChunkIterators.ChunkIteratorDeclination.Next | star_tracker_lib/lib/tracking_mode/database/chunk_iterator.rs:220-230 | false, changing nothing, once the index reaches the band count; otherwise the index grows by one and the band becomes the one the randomiser picks for this step |
| ChunkIterators.ChunkIteratorDeclination.SameRegion | star_tracker_lib/lib/tracking_mode/database/chunk_iterator.rs:235-251 | a pair is in the band exactly when both stars are catalogued and one of them lies in it |
| ChunkIterators.RaCovers | star_tracker_lib/lib/tracking_mode/database/chunk_iterator.rs:480-493 | a right ascension inside the bounds is covered, and when the bounds stay within 0 to 360 degrees covering is exactly lying inside them |
| Databases.FindStar | star_tracker_lib/src/tracking_mode/database/database.rs:28-35 | the catalogue entry exactly when the index is below the catalogue size, otherwise `OutOfBounds` |
| Databases.AngleDistance | star_tracker_lib/src/tracking_mode/database/database.rs:161-173 | the separation of the two catalogue stars exactly when both indices are in the catalogue, otherwise `OutOfBounds` |
| Databases.Clamped | star_tracker_lib/src/tracking_mode/database/database.rs:126-127 | the start is clamped below the last pair and the end to the pair count; each end is unchanged when already in bounds |
| Databases.TrimmedUnique | star_tracker_lib/src/tracking_mode/database/database.rs:118-154 | the description of a trimmed range fixes both of its ends |
| Databases.TrimmedInside | star_tracker_lib/src/tracking_mode/database/database.rs:118-154 | a trimmed range lies within the clamped range and is not inverted when that range is non-empty |
| Databases.TrimStart | star_tracker_lib/src/tracking_mode/database/database.rs:130-140 | the lower loop moves the start past boundary pairs outside the tolerance, stopping at a pair inside it, at the end or at the last pair |
| Databases.TrimRangeAsWritten | star_tracker_lib/src/tracking_mode/database/database.rs:118-154 | panics exactly when the pair list is empty (the clamp's `get_pairs_size() - 1` underflows), the clamped end is 0, or the single pair sits at start 0 outside the tolerance; otherwise returns the trimmed range |
| Databases.TrimEmptyRangePanics | star_tracker_lib/src/tracking_mode/database/database.rs:143-151 | on any database the empty range `0..0` makes the upper loop step below index 0 |
| Databases.TrimSinglePairPanics | star_tracker_lib/src/tracking_mode/database/database.rs:143-151 | a one-pair database whose pair is outside the tolerance makes the upper loop step below index 0 |
| Databases.TrimRange | star_tracker_lib/src/tracking_mode/database/database.rs:118-154 | with the `start < end` test first, never panics and returns the unique trimmed range |
| Databases.EndBin | star_tracker_lib/src/tracking_mode/database/database.rs:70-74 | the last bin index is moved down one only when it is past the bin table |
| Databases.FindCloseRefRange | star_tracker_lib/src/tracking_mode/database/database.rs:64-79 | `0..0` when the k-vector lookup fails; otherwise the pairs from the first bin's start to the last bin's start trimmed by `trim_range` as written: a panic (`None`) exactly when that trim panics, else the trimmed range |
| Databases.FindCloseRefRangePanics | star_tracker_lib/src/tracking_mode/database/database.rs:74-76 | when the lookup's bins both start at pair 0 the looked-up range is `0..0`, and `find_close_ref_range` panics |
| Databases.FindCloseRefRangeNoPairs | star_tracker_lib/src/tracking_mode/database/database.rs:64-79 | with an empty pair list the result is `0..0` when the k-vector lookup fails and a panic otherwise |
| Databases.Results | star_tracker_lib/src/tracking_mode/database/database.rs:46-54 | one search result per pair of the range, in order, each with error 1 |
| Databases.FindCloseRef | star_tracker_lib/src/tracking_mode/database/database.rs:43-56 | accepts any pair list, the empty one included; when the range panics nothing has been pushed; otherwise appends the results for the close range to `found`, in order, dropping those past its capacity; its storage is not replaced |
| Databases.PushResults | star_tracker_lib/src/tracking_mode/database/database.rs:46-55 | the loop pushes the pairs of the range, in order, while `found` has room |
| KVectors.Ceil | src/tracking_mode/database/k_vector.rs:123 | the ceiling is the least whole number at or above the value |
| KVectors.ToUsize | src/tracking_mode/database/k_vector.rs:129 | the `as usize` cast saturates into `0..=usize::MAX` and keeps every value already in it |
| KVectors.New | src/tracking_mode/database/k_vector.rs:64-77 | keeps the bin count and value range, and puts the line's ends `eps` below the minimum and `eps` above the maximum |
| KVectors.NewCoversRange | src/tracking_mode/database/k_vector.rs:64-77 | with a positive precision the first bin starts below the minimum and the last ends above the maximum |
| KVectors.GetBins | src/tracking_mode/database/k_vector.rs:107-130 | `InvalidValue` exactly when the value is outside the range; otherwise the bin range, capped at the bin count |
| KVectors.GetBinsCovers | src/tracking_mode/database/k_vector.rs:107-130 | for a value in range, the returned bins include the bin whose limits hold the value |
| KVectors.IdealBins | star_tracker_nix/lib/tracking_mode/k_vector.rs:24-28 | enough bins of the tolerance's width to span the first-to-last distance |
| KVectors.IdealBinsTight | star_tracker_nix/lib/tracking_mode/k_vector.rs:24-28 | one bin fewer would not span that distance |
| KVectors.ScanTo | star_tracker_nix/lib/tracking_mode/k_vector.rs:48-56 | the inner scan stops at the first element from its start whose distance reaches the bin limit |
| KVectors.TableExtends | star_tracker_nix/lib/tracking_mode/k_vector.rs:42-58 | appending the next bin's start keeps every entry the first element reaching its bin's limit |
| KVectors.BinTableSorted | star_tracker_nix/lib/tracking_mode/k_vector.rs:42-58 | a bin table never decreases and indexes only the database |
| KVectors.GenerateBins | star_tracker_nix/lib/tracking_mode/k_vector.rs:33-61 | `InvalidSize` exactly when there are fewer than three elements; otherwise one start per bin, ending with the database size, never decreasing |
| DatabaseGenerators.MagnitudeFilter | star_tracker_nix/lib/tracking_mode/database_generator.rs:315-321 | no longer than the input, and holds only stars strictly inside the magnitude band |
| DatabaseGenerators.MagnitudeFilterKeeps | star_tracker_nix/lib/tracking_mode/database_generator.rs:317-320 | a star of the input is kept exactly when it is strictly inside the band |
| DatabaseGenerators.MagnitudeFilterSubsequence | star_tracker_nix/lib/tracking_mode/database_generator.rs:315-321 | the kept stars keep their input order: they are a subsequence of the input |
| DatabaseGenerators.LimitMagnitude | star_tracker_nix/lib/tracking_mode/database_generator.rs:310-323 | the loop returns exactly the stars strictly inside the band, in input order |
| DatabaseGenerators.DropCloseTo | star_tracker_nix/lib/tracking_mode/database_generator.rs:343-352 | the inner loop removes the later stars close to the star at `ii`, keeps everything up to `ii`, and leaves no close pair spanning positions up to `ii` |
| DatabaseGenerators.LimitDoubleStars | star_tracker_nix/lib/tracking_mode/database_generator.rs:333-355 | a subsequence of the input that keeps the first star and holds no two stars closer than the tolerance |
| DatabaseGenerators.Region | star_tracker_nix/lib/tracking_mode/database_generator.rs:256-263 | exactly the positions of kept stars within the region size of the new star, in increasing order |
| DatabaseGenerators.RegionsFilter | star_tracker_nix/lib/tracking_mode/database_generator.rs:250-277 | the stars kept, one input star at a time; never more than the input |
| DatabaseGenerators.RegionsFilterPrefix | star_tracker_nix/lib/tracking_mode/database_generator.rs:250-277 | what is kept from a prefix of the input is a prefix of what is kept from all of it |
| DatabaseGenerators.RegionsFilterKeepsFirst | star_tracker_nix/lib/tracking_mode/database_generator.rs:268 | while no more than `stars_in_region` stars are offered, every one is kept |
| DatabaseGenerators.RegionsFilterKeepsPrefix | star_tracker_nix/lib/tracking_mode/database_generator.rs:268 | the first `min(n, stars_in_region)` input stars head the result |
| DatabaseGenerators.RegionsFilterSubsequence | star_tracker_nix/lib/tracking_mode/database_generator.rs:250-277 | the kept stars are a subsequence of the input |
| DatabaseGenerators.NeighboursOfNew | star_tracker_nix/lib/tracking_mode/database_generator.rs:275 | an added star's neighbour count is the size of the region it was added with |
| DatabaseGenerators.ScanRegion | star_tracker_nix/lib/tracking_mode/database_generator.rs:256-263 | the scan's region is exactly the stars close to the new one, and `lonely` holds exactly when one of them has fewer than `stars_in_region` counted |
| DatabaseGenerators.CountNeighbour | star_tracker_nix/lib/tracking_mode/database_generator.rs:270-273 | each count rises by one exactly when its star is in the region; the others are unchanged |
| DatabaseGenerators.CountsAfterAdd | star_tracker_nix/lib/tracking_mode/database_generator.rs:270-275 | bumping the region's counts and giving the new star its region size plus one keeps every count equal to one plus its linked stars |
| DatabaseGenerators.AddIfAccepted | star_tracker_nix/lib/tracking_mode/database_generator.rs:252-276 | adds the star exactly when the kept stars accept it, and keeps the counts right |
| DatabaseGenerators.LimitRegions | star_tracker_nix/lib/tracking_mode/database_generator.rs:233-279 | requires more than three stars per region; returns exactly the stars the region filter keeps |
| Specularities.Cross | star_tracker_lib/src/tracking_mode/specularity.rs:87 | the cross product is perpendicular to both of its factors |
| Specularities.Default | star_tracker_lib/src/tracking_mode/specularity.rs:31-34 | the default threshold is the hand-picked 0.001 |
| Specularities.Test | star_tracker_lib/src/tracking_mode/specularity.rs:85-93 | `Ignore` exactly when the triple product is smaller in size than the threshold; otherwise whether it is positive |
| Specularities.Same | star_tracker_lib/src/tracking_mode/specularity.rs:18-23 | true unless one triangle tests positive and the other negative |
| Specularities.SameSymmetric | star_tracker_lib/src/tracking_mode/specularity.rs:18-23 | the order of the two triangles does not matter |
| Specularities.SwapNegates | star_tracker_lib/src/tracking_mode/specularity.rs:76-79 | swapping the last two vertices negates the triple product |
| Specularities.RotateKeeps | star_tracker_lib/src/tracking_mode/specularity.rs:78-79 | rotating the vertices keeps the triple product |
| Specularities.SwapFlips | star_tracker_lib/src/tracking_mode/specularity.rs:85-93 | a mirrored triangle is ignored when the original is, and otherwise (with a non-zero triple product) tests the opposite way |
| Specularities.MirrorNotSame | star_tracker_lib/src/tracking_mode/specularity.rs:18-23 | a triangle and its mirror image are the same exactly when the test cannot tell or the triple product is zero |
| Specularities.RotatedSame | star_tracker_lib/src/tracking_mode/specularity.rs:18-23 | a triangle and its rotation are always the same |
| Specularities.ExampleTriangle | star_tracker_lib/src/tracking_mode/specularity.rs:68-83 | the documented points give a triple product of 240: valid and positive at threshold 239, negative with the last two swapped, ignored at 250 |
| Specularities.Dot | star_tracker_lib/src/tracking_mode/specularity.rs:87 | a product with the zero vector is zero |
| Specularities.TripleProduct | star_tracker_lib/src/tracking_mode/specularity.rs:87 | when the first star coincides with either of the others the product is zero, so the triangle is ignored |
| Matrices.ZeroGrid | star_tracker_lib/src/util/units/matrix.rs:28-31 | a grid of the given shape whose every cell is zero |
| Matrices.IdentityGrid | star_tracker_lib/src/util/units/matrix.rs:38-46 | a square grid with one on the diagonal and zero elsewhere |
| Matrices.Transpose | star_tracker_lib/src/util/units/matrix.rs:134-147 | cell (c, r) of the transpose is cell (r, c) of the grid, with the shape swapped |
| Matrices.TransposeTwice | star_tracker_lib/src/util/units/matrix.rs:134-147 | transposing twice gives the grid back |
| Matrices.TransposeIdentity | star_tracker_lib/src/util/units/matrix.rs:38-46 | the identity is its own transpose |
| Matrices.DiagonalSumTranspose | star_tracker_lib/src/util/units/matrix.rs:227-235 | a square grid and its transpose have the same trace |
| Matrices.DiagonalSumIdentity | star_tracker_lib/src/util/units/matrix.rs:227-235 | the trace of the identity is its size |
| Matrices.Minor | star_tracker_lib/src/util/units/matrix.rs:347-356 | the 2x2 minor holds rows 1 and 2 of the 3x3 grid without column `i`, in order |
| Matrices.Det3Transpose | star_tracker_lib/src/util/units/matrix.rs:340-366 | a 3x3 grid and its transpose have the same determinant |
| Matrices.DetIdentity | star_tracker_lib/src/util/units/matrix.rs:312-316 | the 2x2 and 3x3 identities have determinant one |
| Matrices.Det3Example | star_tracker_lib/src/util/units/matrix.rs:328-338 | the documented 3x3 example has determinant 1326 |
| Matrices.Matrix.constructor | star_tracker_lib/src/util/units/matrix.rs:28-31 | a fresh matrix of the given shape, all zeros |
| Matrices.Matrix.Identity | star_tracker_lib/src/util/units/matrix.rs:38-46 | a fresh square matrix holding the identity |
| Matrices.Matrix.FromDecimal | star_tracker_lib/src/util/units/matrix.rs:255-260 | a fresh 1x1 matrix holding the value |
| Matrices.Matrix.Get | star_tracker_lib/src/util/units/matrix.rs:86-89 | the cell at a position inside the matrix |
| Matrices.Matrix.Set | star_tracker_lib/src/util/units/matrix.rs:105-108 | the cell at the position holds the value afterwards and no other cell changes |
| Matrices.Matrix.ToDecimal | star_tracker_lib/src/util/units/matrix.rs:272-292 | a 1x1 matrix's value and determinant are its single cell |
| Matrices.Matrix.Transposed | star_tracker_lib/src/util/units/matrix.rs:134-147 | a fresh matrix holding the transpose; the original is unchanged |
| Matrices.Matrix.Insert | star_tracker_lib/src/util/units/matrix.rs:187-205 | `InvalidSize` with nothing changed exactly when the block does not fit; otherwise the block is written and every other cell keeps its value |
| Matrices.Matrix.Trace | star_tracker_lib/src/util/units/matrix.rs:227-235 | the sum of the diagonal |
| Matrices.Matrix.Determinate2 | star_tracker_lib/src/util/units/matrix.rs:312-316 | `ad - bc` of the cells |
| Matrices.Matrix.Determinate3 | star_tracker_lib/src/util/units/matrix.rs:340-366 | the cofactor expansion along row 0, which equals the rule of Sarrus |
| Matrices.Matrix.CofactorTerm | star_tracker_lib/src/util/units/matrix.rs:345-364 | one term of the expansion: the row-0 cell times its minor's determinant |
| Matrices.Matrix.BuildMinor | star_tracker_lib/src/util/units/matrix.rs:347-356 | a fresh 2x2 matrix holding the minor without row 0 and column `i` |
| Matrices.Det2 | star_tracker_lib/src/util/units/matrix.rs:312-316 | a 2x2 matrix with equal rows has determinant 0, and a triangular one the product of its diagonal |
| Matrices.CofactorsSarrus | star_tracker_lib/src/util/units/matrix.rs:340-366 | the cofactor expansion along row 0 equals the rule of Sarrus |
| Matrices.Det3 | star_tracker_lib/src/util/units/matrix.rs:340-366 | the determinant is the rule of Sarrus, so a triangular matrix has the product of its diagonal |
| Trees.PreOrder | Database/src/Tree.java:263-271 | a non-empty subtree's pre-order traversal starts with its root |
| Trees.PreOrderSameStars | Database/src/Tree.java:263-289 | the pre-order and in-order traversals visit the same stars, with repetition |
| Trees.BoundsMembers | Database/src/Tree.java:263-289 | a key bound on a subtree holds for every star either traversal lists |
| Trees.InOrderStars | Database/src/Tree.java:281-289 | the in-order traversal lists exactly the stars of the subtree |
| Trees.InsertNodeStars | Database/src/Tree.java:67-111 | insertion adds exactly the new star |
| Trees.InsertNodeHeight | Database/src/Tree.java:67-111 | insertion grows the height by at most one |
| Trees.InsertNodeBounds | Database/src/Tree.java:77-100 | a key within a subtree's bound keeps the subtree within it |
| Trees.InsertNodeOrdered | Database/src/Tree.java:67-111 | insertion keeps the search-tree order (equal keys on the left) |
| Trees.InsertEqualKey | Database/src/Tree.java:101-106 | a key equal to a node's goes immediately before that node in the in-order traversal, with the old left subtree beneath it |
| Trees.OrderedAscending | Database/src/Tree.java:247-289 | the in-order traversal of a search tree is ascending by attribute |
| Trees.InsertAllAppend | Database/src/Tree.java:52-56 | inserting two lists one after the other is inserting their concatenation |
| Trees.InsertAllLeft | Database/src/Tree.java:77-88 | stars keyed below the root all go into its left subtree |
| Trees.InsertAllRight | Database/src/Tree.java:89-100 | stars keyed above the root all go into its right subtree |
| Trees.PreOrderRebuilds | Database/src/Tree.java:231-236 | inserting a tree's pre-order traversal into an empty tree rebuilds it when its keys are distinct |
| Trees.HeightBounds | Database/src/Tree.java:204-212 | the height is at most the star count, and the star count is below two to the height |
| Trees.BalanceRec | Database/src/Tree.java:184-198 | the score lies between 0 and 100 |
| Trees.BalanceHundred | Database/src/Tree.java:184-198 | the score is 100 exactly for a non-empty tree whose every node has two children or none |
| Trees.Tree.constructor | Database/src/Tree.java:43 | an empty tree with count 0 |
| Trees.Tree.FromList | Database/src/Tree.java:52-56 | the stars of the list inserted in list order; the tree holds exactly them and counts them |
| Trees.Tree.Insert | Database/src/Tree.java:67-111 | the root becomes the old tree with the star inserted, which adds exactly that star, and the count rises by one |
| Trees.Tree.InOrderTraversal | Database/src/Tree.java:247-252 | every star of the tree once per occurrence, ascending by attribute, as many as the count |
| Trees.Tree.PreOrderTraversal | Database/src/Tree.java:231-236 | the root first, and the same stars as the in-order traversal |
| Trees.Tree.Balance | Database/src/Tree.java:172-175 | a score from 0 to 100, exactly 100 when every node has two children or none |
| Trees.CreateBalancedTreeRec | Database/src/Tree.java:151-161 | inserts exactly the stars strictly between positions `min` and `max` |
| Trees.CreateBalancedTree | Database/src/Tree.java:132-139 | a fresh tree holding the in-order traversal without its first and last star; empty for fewer than three stars |
| Trees.BalancedDropsEnds | Database/src/Tree.java:132-161 | three stars rebuild into a tree holding only the middle one |
| Trees.BuildBalanced | Database/src/Tree.java:151-161 | the corrected recursion inserts exactly the stars of the half-open range |
| Trees.CreateBalancedTreeFixed | Database/src/Tree.java:132-139 | the corrected rebuild gives a fresh tree with exactly the old tree's stars and count |
| Trees.HeightExample | Database/test/TreeTest.java:209-238 | inserting 0, 1, 2 gives height 3; adding -1 and -2 keeps it 3; adding -3 makes it 4 |
| Trees.InOrder | Database/src/Tree.java:281-289 | the traversal is empty exactly for the empty tree (InOrderStars: it holds exactly the tree's stars) |
| Trees.Height | Database/src/Tree.java:204-212 | zero exactly for the empty tree, one for a leaf |
| Trees.InsertNode | Database/src/Tree.java:67-111 | the result is never empty, a new tree is the single node, and an existing root stays the root |
| Trees.InsertAll | Database/src/Tree.java:52-56 | no stars leave the tree as it was; otherwise it is not empty, and its root is the old root or, from an empty tree, the first star inserted |
| Trees.JavaHalf | Database/src/Tree.java:153 | Java's `/ 2` rounds toward zero: twice the result lies between 0 and x and within 1 of x |
| Preprocessors.ReadLine | Database/src/Preprocessor.java:223-236 | a star exactly when there are three fields and all three parse, built from them; an uncaught index error exactly when field 1 or field 2 is missing when it is reached |
| Preprocessors.PreprocessedKeeps | Database/src/Preprocessor.java:214-239 | the output exists exactly when no line raises an uncaught error; it then holds exactly the stars of the parseable lines below the cut-off |
| Preprocessors.Preprocess | Database/src/Preprocessor.java:214-239 | the loop reads the lines in order and returns the stars the line-by-line definition keeps |
| Preprocessors.PreprocessedAbsorbs | Database/src/Preprocessor.java:220-237 | once a line raises an uncaught error, the lines after it do not matter |
| Preprocessors.Near | Database/src/Preprocessor.java:143-147 | the stars closer to the pilot than the radius, in list order; never more than the list |
| Preprocessors.NearMembers | Database/src/Preprocessor.java:146 | a star appears among the near stars exactly when it is in the list and within the radius |
| Preprocessors.NearAppend | Database/src/Preprocessor.java:143-147 | filtering a list in two pieces is filtering it whole |
| Preprocessors.ClosestBrightest | Database/src/Preprocessor.java:127-156 | present exactly when the list has more than three stars and at least `num` stars after its head lie within the radius; then `num` such stars |
| Preprocessors.FindClosestBrightest | Database/src/Preprocessor.java:127-156 | the iterator loop returns what the filter-based definition gives |
| Preprocessors.NextNear | Database/src/Preprocessor.java:143-147 | the inner hunt moves the iterator to just past the next near star, or to the end when there is none |
| Preprocessors.CombinationSource | Database/src/Preprocessor.java:170-186 | every set appended comes from one triple of positions `i < j < k` of the companions with a finite angle |
| Preprocessors.KLoopSource | Database/src/Preprocessor.java:175-185 | every set the innermost loop appends for `ii, jj` comes from one `kk` above `jj` with a finite angle |
| Preprocessors.JLoopSource | Database/src/Preprocessor.java:174-185 | every set the middle loop appends for `ii` comes from one pair `jj < kk` above `ii` with a finite angle |
| Preprocessors.KLoopLength | Database/src/Preprocessor.java:175-185 | the innermost loop for `ii, jj`, run up to `kk`, appends at most `kk - jj - 1` sets, one per position |
| Preprocessors.JLoopLength | Database/src/Preprocessor.java:174-185 | the middle loop for `ii`, run up to `jj`, appends at most C(n - ii - 1, 2) - C(n - jj, 2) sets |
| Preprocessors.ILoopLength | Database/src/Preprocessor.java:173-185 | the outer loop up to `ii` appends at most C(n, 3) - C(n - ii, 3) sets |
| Preprocessors.ILoopPilot | Database/src/Preprocessor.java:170-186 | every set `combinations` appends holds the pilot it was called with |
| Preprocessors.CombinationsCount | Database/src/Preprocessor.java:170-186 | at most C(n, 3) sets are appended for `n` companions |
| Preprocessors.Combinations | Database/src/Preprocessor.java:170-186 | the three loops append, after the existing sets, exactly the sets of the triples with a finite angle, in loop order |
| Preprocessors.CombinationsFrom | Database/src/Preprocessor.java:174-185 | the middle and inner loops for one `ii` append that position's sets in loop order |
| Preprocessors.TriplesFrom | Database/src/Preprocessor.java:175-185 | the inner loop for one `ii, jj` appends those positions' sets in loop order |
| Preprocessors.GetAngles | Database/src/Preprocessor.java:83-111 | the output is the sets of every pilot at an even position, and the loop leaves the odd last star, if any |
| Preprocessors.PilotAngles | Database/src/Preprocessor.java:93-104 | one turn appends the combinations of the pilot's companions, when it has enough of them |
| Preprocessors.AnglesSource | Database/src/Preprocessor.java:90-109 | every output set's pilot is at an even position and its three companions come from after the star following it |
| Preprocessors.SortStar | Database/src/Preprocessor.java:249-260 | a permutation of the list, ascending by attribute |
| Preprocessors.SortSet | Database/src/Preprocessor.java:270-281 | a permutation of the list, descending by attribute |
| Preprocessors.Preprocessed | Database/src/Preprocessor.java:214-239 | when no exception escapes, at most one star per line is kept and every kept star is below the cut-off |
| Preprocessors.Triple | Database/src/Preprocessor.java:177-184 | one set of the pilot and the three stars at i, j, k, or nothing exactly when its angle is not finite |
| Preprocessors.PilotSets | Database/src/Preprocessor.java:92-102 | every set one pilot contributes has that pilot |
| Preprocessors.Angles | Database/src/Preprocessor.java:83-111 | with at most one star nothing is output, and every set output has one of the stars as its pilot |

## Left out

- Floating point: `Decimal` is modelled as exact `real` arithmetic. Rounding, NaN and infinity are not modelled. The one NaN/infinity test, in `combinations`, is an `Option` returned by the star-set angle parameter.
- Trigonometry is a parameter wherever the source uses it: the angular distance between catalogue or catalogue-file positions, the angle of a Java `StarSet`, and `sin`/`cos` in `angles.rs`. `Vector3`, `Equatorial` and `StarSet.java` are not part of this model beyond the cross and dot products of the specularity test.
- I/O is left out: the progress printing of `getAngles` and `preprocess`, file reading, and the split of a CSV line. The lines are given as a sequence, and splitting and number parsing are parameters.
- Integer widths: `usize`, `isize` and `UInt` are unbounded. Width is modelled only where the source depends on it: the 64-bit word of `WordList`, the saturating `as usize` cast of `get_bins`, and `usize::MAX` as the vector list's capacity.
- Comparators (`in_order`, `compare`) are function parameters. Sortedness is proved under a strict weak order, which the blob comparators are proved to be.
- `DECIMAL_PRECISION` is the parameter `eps`, because the aliases file is not part of this model.
- Divisions by a float that the source does not guard are excluded by `requires` clauses: the k-vector gradient, the `ideal_bins` tolerance and the blob centroid's combined intensity must not be zero.
- Trees.Tree.Insert: the Java node walk and in-place linking of `TreeNode`s is modelled as rebuilding an inductive `Node` value. Aliasing between nodes is not captured.
- StarTriangleIterators.StarTriangleIterator.PrepNewKernel: the kernel iterator and the chunk database search are outside the model. The kernels they would produce are a queue given to `Begin`, and a pilot's database matches are the `lookup` parameter of `PrepNewPilot`.
- `StarTriangleIterator::next_pilot` and `StarTriangleIterator::new` are not modelled. `next_pilot` is not part of the core, and `Begin` sets every field the iteration reads.
- `StarTriangle::find_match_triangle` and `to_vector3`, and `Blob::to_vector2`, are not modelled. They are conversions through the unit types, which are not part of this model.
- `ArrayList::from_array` and `clone`, and the `Matrix` adjoint, 4x4 determinant, `to_vector3` and `multiply`, are not modelled, because they are outside the core.
- `ChunkIterator::find_close_ref_region`, `ChunkIteratorEquatorial` and `widen_integer_step` are not modelled: they compute declination bands in floating point. Instead, `ChunkIteratorDeclination`'s constructor takes the band count and step as inputs.
- Angles.HoursMinutesSecondsSum: the hours, minutes and seconds add back up to the hour angle only for a non-negative angle. `NegativeHoursSplit` shows that a negative one splits differently. Right ascension in hours is never negative.
- ChunkIterators.RaCoversIsWrapped: the wrapped right-ascension test is characterised for ranges ending below 360 degrees. A range ending exactly at 360 degrees does not fold a star at 0.
- Preprocessors.GetAngles: `getAngles` drops the star after each pilot, and `findClosestBrightest` also skips the head of the list it is given. Both are modelled as written, and `AnglesSource` states the outcome. `pilotSets` is a `nat`, so the `NegativeArraySizeException` that a negative count raises in `findClosestBrightest` is not modelled.
- Preprocessors.CombinationsCount: it states the bound of at most C(n, 3) sets, not the exact count when every angle is finite.
- `Image::get`, `set`, `width` and `height` are the trait's storage, modelled as the pixel rows of `ImageBasic`. Reading or writing outside the image, which panics in the source, is excluded by `requires` clauses.
- KVectors.GenerateBins: at least one bin is required, and every bin limit but the last must be reached by some element. With zero bins, `num_bins - 1` underflows (star_tracker_nix/lib/tracking_mode/k_vector.rs:42). With a limit above every element, the scan at line 53 runs past the end of the database. Both panics are left out.
- KVectors.IdealBins: the database must not be empty. On an empty one, `sorted_database[len - 1]` at star_tracker_nix/lib/tracking_mode/k_vector.rs:26 underflows and panics, which is left out.
- Databases.FindCloseRefRange: `LookupFits` requires the bin range to lie inside the k-vector. The source reads `get_k_vector` at the range's start and end and decrements `end_range` without a check (star_tracker_lib/src/tracking_mode/database/database.rs:70-75). Those index and underflow panics are left out. The `trim_range` panics, including the one an empty pair list causes, are modelled, as `None`.
- Databases.TrimRange: the corrected trim still requires a non-empty pair list, because its clamp underflows `get_pairs_size() - 1` as the source's does (star_tracker_lib/src/tracking_mode/database/database.rs:126); the as-written `TrimRangeAsWritten` models that panic as `None`.
- Databases.FindCloseRef: it has the same `LookupFits` requirement. A `trim_range` panic is modelled as `None` with nothing pushed, where the source aborts.
- StarTriangleIterators.StarTriangleIterator.Next: every combination it passes over in the kernel it starts in is stated not to close only when the side combination starts at a combination or at its start. That holds everywhere except after a `next` that returned `None` with an empty side list. The kernels it moves on to are covered in every case.
- ImageWords.ImageWord.CopyFrom: the nibble width must be below 16 bits. From 16 bits up, `from.get(px) << diff` shifts a byte by 8 or more (star_tracker_lib/src/image_processing/image_word.rs:189), which panics in the source and is left out.
- ArrayLists.ArrayList.Get: an index at or past the size fails an assertion in the source; the model excludes it by `requires`.
- VecLists.VecList.Get: an index past the end panics in the source; the model excludes it by `requires`.
- Preprocessors.ClosestBrightest: `num` is a `nat`. A negative `num` with more than three stars makes `new Star[num]` throw `NegativeArraySizeException` (Database/src/Preprocessor.java:132), which is left out.
- Preprocessors.SortStar: the Java comparator returns 1 or -1 and never 0 (Database/src/Preprocessor.java:255-257). For two stars of equal attribute it breaks `Comparator`'s contract, so `Collections.sort` may order them either way or throw. The model sorts stably, so stars of equal attribute keep their input order.
- Preprocessors.SortSet: the same as `SortStar` for star sets in descending order (Database/src/Preprocessor.java:276-278).
- Preprocessors.Combinations: the angle parameter stands for the `StarSet` of Database/libs/StarSet.java, whose constructor does not throw. A set whose angle is NaN or infinite is dropped, as Database/src/Preprocessor.java:178-182 tests. Database/src/StarSet.java instead throws `ArithmeticException` on such an angle. That exception would escape `combinations` and `getAngles`, and is not modelled.

## Findings

| source | as written | input that shows it | evidently intended | confidence | as-written member | corrected member |
|---|---|---|---|---|---|---|
| star_tracker_lib/src/tracking_mode/database/database.rs:143-151 | the upper loop of `trim_range` looks up pair `end - 1` before it tests `start < end` | the range `0..0`, which `find_close_ref_range` passes on when the k-vector lookup lands on the first pairs (`FindCloseRefRangePanics`), or a one-pair database whose pair is outside the tolerance: `end - 1` underflows | test `start < end` first, so the loop stops at the start and never indexes below 0 | not executed | Databases.TrimRangeAsWritten | Databases.TrimRange |
| Database/src/Tree.java:151-161 | `createBalancedTreeRec` recurses on `min..mid` and `mid..max`, sharing the end points, and inserts only a midpoint strictly between them | a tree of three stars rebuilds into a tree holding only the middle star; two stars rebuild into an empty tree | a balanced duplicate holding every star of the tree | not executed | Trees.CreateBalancedTree | Trees.CreateBalancedTreeFixed |
