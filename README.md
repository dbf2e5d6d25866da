# PowerPoint slide packaging, modelled in Dafny

The repository turns a slide deck into prompts for a content-analysis service.
For each slide it gathers the text of the shapes and the pictures, and labels
each picture with an identifier such as `IMG_2_1`. It saves and uploads them,
optionally combines them into one side-by-side image, and asks the service for
a summary. Every reply goes into one output file, followed by a blank line.

The pipeline exists in two diverging copies, and both are modelled:

* `powerpoint_analyzer.py` (module `Analyzer`) also renders a snapshot of every
  slide and uploads it. It always runs over slides 0 and 1 (`range(2)`).
  When combining, it keeps the last two of the individual uploads
  (`ai_files[-2:]`), so the last picture travels alongside the composite and
  the snapshot.
* `main.py` (module `MainScript`) runs over every slide but the last, and
  makes no snapshot. It combines only when the slide has a picture, and then
  sends the composite alone.

The project has these modules:

* `Results`: `Option`, `Result` and the failures the source raises. These are
  `Image.new` with a negative size, `resize` to an empty box, `zip(*())` on
  no images, and `prs.slides[i]` past the end.
* `PyText`: `str.strip()` with Python's whitespace set, and the decimal
  rendering of an int in an f-string.
* `Bitmaps` and `Raster`: images as values (`Bitmap`), and the Pillow image
  object as a class over an `array2` that `paste` and `draw.text` change in
  place.
* `Slides`: shapes, the EMU-to-pixel conversion and the extraction loop.
* `Snapshot`: `generate_slide_snapshot` as a paint plan and its loop.
* `Labeling`: `add_id_to_image`.
* `Identifiers`: identifiers and temporary file names.
* `Composite`: the side-by-side composite and its paste loop.
* `Staging`: the shared label-and-upload loop.
* `Chat`: uploads, `process_content`'s chat history, and the instruction text.
* `Report`: the output file.

Pillow's font metrics, glyph coverage, alpha blend and resampling are not
modelled. They are passed in as a `Toolkit` value. The service is passed in
as a function from chat history and message to reply.

Each imperative loop of the source is a Dafny `method` with its loop, except
the snapshot loop over the one-element list `[snapshot1]`, whose single pass
is written out in `Analyzer.UploadSlideFiles`. Each method is proved against a function that states what the loop computes, and
lemmas state what the source promises about those functions.

## Model

| member | source | states |
|---|---|---|
| PyText.TrimStart | powerpoint_analyzer.py:90 | the left half of `strip`: the result is a suffix of the input, everything dropped is whitespace, and the result is empty or starts with a non-space |
| PyText.TrimEnd | powerpoint_analyzer.py:90 | the right half of `strip`: the result is a prefix of the input, everything dropped is whitespace, and the result is empty or ends with a non-space |
| PyText.StripKeepsCore | powerpoint_analyzer.py:90 | `text.strip()` is one contiguous slice of `text`, and only whitespace lies on either side of it |
| PyText.StripLeavesNoSpaceAtEnds | powerpoint_analyzer.py:90 | a non-empty stripped text starts and ends with a non-whitespace character |
| PyText.StripIgnoresTrailingSpace | powerpoint_analyzer.py:80-90 | appending a whitespace character (the `"\n"` after each text) does not change the stripped result |
| PyText.Decimal | powerpoint_analyzer.py:151 | `f"{n}"` is a non-empty string of digits with no leading zero (except `"0"` itself) |
| PyText.DecimalRoundTrip | powerpoint_analyzer.py:151 | reading back the decimal rendering of `n` gives `n` |
| PyText.DecimalInjective | powerpoint_analyzer.py:159 | different numbers render differently |
| Slides.ToPixels | powerpoint_analyzer.py:95-96 | `int(inches * 96)` truncates toward zero: the result is within one pixel of `emu * 96 / 914400`, on the side of zero |
| Slides.ToPixelsMonotone | powerpoint_analyzer.py:106-109 | the conversion keeps order, and one inch is 96 pixels |
| Slides.RawTextIsJoin | powerpoint_analyzer.py:75-80 | the text accumulator is the texts of the text-bearing shapes, in shape order, joined by newlines and followed by one newline; shapes without text add nothing |
| Slides.ExtractedTextIsJoined | powerpoint_analyzer.py:75-90 | the extracted text is `"\n".join(texts).strip()` |
| Slides.PicturesAtIndices | powerpoint_analyzer.py:78-85 | entry k of the image list is the picture of the shape at the k-th PICTURE position |
| Slides.PictureIndicesIncrease | powerpoint_analyzer.py:78-85 | the PICTURE positions lie inside the slide and increase strictly |
| Slides.PictureIndicesCover | powerpoint_analyzer.py:78-85 | no PICTURE shape is missed |
| Slides.PicturesInShapeOrder | powerpoint_analyzer.py:78-85 | one image per PICTURE shape, in shape order, none missed |
| Slides.ShapeFeedsBothOutputs | powerpoint_analyzer.py:79-85 | a PICTURE shape with text contributes both its text and its picture, because the two `if`s are independent |
| Slides.ExtractSlideContent | main.py:71-82 | the loop returns the stripped text accumulator, and images holding exactly the pictures of the PICTURE shapes (`shape_type == 13`), in shape order |
| Raster.Image.New | powerpoint_analyzer.py:99 | `Image.new` gives a fresh image of the requested size, filled with the colour |
| Raster.Image.Of | powerpoint_analyzer.py:82-85 | an opened picture is a fresh image holding the decoded pixels |
| Raster.Image.Copy | powerpoint_analyzer.py:160 | `img.copy()` is a fresh image with the same pixels, and the original is untouched |
| Raster.Image.Paste | powerpoint_analyzer.py:111 | `paste` replaces the pixels under the source box with the source's pixels; the rest stay |
| Raster.Image.Shade | powerpoint_analyzer.py:139-140 | pasting the translucent tag changes exactly the pixels under the tag box |
| Raster.Image.DrawText | powerpoint_analyzer.py:117 | `draw.text` sets exactly the pixels covered by the glyphs to the fill colour |
| Bitmaps.Blank | powerpoint_analyzer.py:99 | a new canvas has the requested size and every pixel is the fill colour |
| Bitmaps.PasteAt | powerpoint_analyzer.py:111 | the pasted value keeps the destination's size; inside the box each pixel is the source's, clipped at the border; elsewhere it is the destination's |
| Bitmaps.ShadeBox | powerpoint_analyzer.py:139-140 | inside the box each pixel is shaded; elsewhere it is unchanged |
| Bitmaps.InkAt | powerpoint_analyzer.py:117 | glyph-covered pixels take the fill colour; all others are unchanged |
| Identifiers.PairRoundTrip | powerpoint_analyzer.py:159 | `f"{a}_{b}"` can be read back into `(a, b)` |
| Identifiers.ImageIdRoundTrip | powerpoint_analyzer.py:159 | `IMG_{i+1}_{idx+1}` is derived from `(i, idx)` alone and gives them back |
| Identifiers.SnapshotIdRoundTrip | powerpoint_analyzer.py:171-172 | with `idx` always 0, the snapshot id is `snapshot_{i+1}`, and it gives `i` back |
| Identifiers.IdentifiersDistinct | powerpoint_analyzer.py:159-172 | image ids differ for different `(i, idx)`, snapshot ids differ for different slides, and no image id is a snapshot id |
| Identifiers.ImagePathInjective | powerpoint_analyzer.py:163 | different `(i, idx)` give different `temp_image_` files |
| Identifiers.SnapshotPathInjective | powerpoint_analyzer.py:171-176 | different slides save their snapshots under different file names |
| Identifiers.CompositePathInjective | powerpoint_analyzer.py:192-193 | different slides save their composites under different file names |
| Identifiers.TempPathsDistinct | powerpoint_analyzer.py:163-192 | image, snapshot and composite temporary files never collide: each kind is injective in its indices, and the three kinds never share a name |
| Labeling.AddIdToImage | powerpoint_analyzer.py:127-143 | it returns its own argument, changed in place to `Labeled(old pixels)`: unchanged when labels are off; otherwise a (text width + 20) x (text height + 20) shaded box at (10, 10) with the id in white at (20, 20) |
| Labeling.DisabledLabelIsIdentity | powerpoint_analyzer.py:128-129 | with labels off the pixels come back unchanged |
| Labeling.LabelPixels | powerpoint_analyzer.py:130-142 | labeling keeps the size; each pixel is white ink where a glyph covers it, else shaded inside the tag box, else the original |
| Labeling.LabelStaysInTag | powerpoint_analyzer.py:133-142 | when the font's ink lies inside its bounding box, labeling changes no pixel outside the tag box |
| Staging.LabelCopy | powerpoint_analyzer.py:160 | the label goes on a fresh copy, and the caller's image keeps its pixels |
| Staging.LabelAndUploadImages | powerpoint_analyzer.py:157-168 | `processed_imgs` is the labeled copies in order, and `ai_files` uploads each one under `temp_image_{i+1}_{idx+1}.png`, in the same order |
| Composite.MaxHeightIsMax | powerpoint_analyzer.py:184 | every image is at most `max(heights)` high, and some image is exactly that high |
| Composite.OffsetsOrdered | powerpoint_analyzer.py:187-190 | each `x_offset` is the sum of the widths before it, so image j ends no later than image k starts, for j < k |
| Composite.RegionInside | powerpoint_analyzer.py:183-190 | the region image `k` is pasted into lies inside the `sum(widths)` x `max(heights)` canvas, for any number of images |
| Composite.RegionsInsideAndDisjoint | powerpoint_analyzer.py:183-190 | every pasted region lies inside the `sum(widths)` x `max(heights)` canvas, and regions do not overlap |
| Composite.ColumnOwner | powerpoint_analyzer.py:185-190 | every canvas column belongs to some image's region |
| Composite.UntouchedRight | powerpoint_analyzer.py:188-190 | columns right of the current offset have not been painted yet |
| Composite.PastedRegionKept | powerpoint_analyzer.py:186-190 | once image k is pasted, no later paste changes its region |
| Composite.ConcatLayout | powerpoint_analyzer.py:183-190 | the composite is `sum(widths)` x `max(heights)`; in image k's columns each pixel is image k's own, and black below the image |
| Composite.CombineImages | powerpoint_analyzer.py:182-190 | fails on no images (the `zip(*())` unpacking); otherwise the paste loop, whose `x_offset` stays the sum of the widths pasted so far, leaves exactly the composite |
| Snapshot.RenderPlanAppend | powerpoint_analyzer.py:102-118 | the paint plan of consecutive shape runs is the concatenation of their plans |
| Snapshot.PlanFollowsShapes | powerpoint_analyzer.py:102-118 | shape k's painting comes after that of every earlier shape and before that of every later one |
| Snapshot.PictureIsPastedNotWritten | powerpoint_analyzer.py:103-112 | a picture shape is resized to its pixel box and pasted at its corner, and its text is never drawn (the `elif`) |
| Snapshot.LastPasteWins | powerpoint_analyzer.py:102-111 | later shapes paint over earlier ones: a pixel shows the last paste covering it, unless a later step touches it |
| Snapshot.PasteTouchesItsBox | powerpoint_analyzer.py:104-111 | when `resize` answers the size asked for, a paste step touches exactly its shape's box converted to pixels |
| Snapshot.PicturePaintsItsBox | powerpoint_analyzer.py:104-111 | when `resize` answers the size asked for, a resizable picture shape paints exactly its converted box with the resized picture and leaves every other pixel as it was |
| Snapshot.BoxedPictureWins | powerpoint_analyzer.py:102-111 | when `resize` answers the size asked for, a pixel in a paste's converted box shows that resized picture unless a later step touches it |
| Snapshot.PaintShape | powerpoint_analyzer.py:103-117 | one pass of the shape loop: fails exactly for a picture whose pixel box is less than one pixel wide or high; otherwise paints the shape's step of the plan; when it fails, nothing has been painted |
| Snapshot.PaintShapes | powerpoint_analyzer.py:102-118 | succeeds exactly when every picture can be resized, and then the image shows the whole plan painted in shape order |
| Snapshot.GenerateSlideSnapshot | powerpoint_analyzer.py:92-120 | the result is the white slide-sized canvas with the plan painted, or the error `Image.new` or `resize` raises |
| Chat.InstructionsCarrySlide | main.py:145-156 | the instructions are the fixed preamble followed by `Slide {i+1}:\n` and the slide's text; the 1-based number and the text can be read back |
| Chat.ChatHistory | powerpoint_analyzer.py:64-69 | one user turn per file, in order, then one user turn holding the text |
| Chat.HistoryCarriesFilesThenText | powerpoint_analyzer.py:64-69 | the history carries exactly the files, in order, and exactly one text, the instructions |
| Report.WriteResults | powerpoint_analyzer.py:228-230 | the file holds `result + "\n\n"` for every result, in order |
| Report.BlocksAppend | powerpoint_analyzer.py:228-230 | the output for consecutive runs of results is the concatenation of their outputs |
| Report.ResultAt | powerpoint_analyzer.py:228-230 | each result appears whole and in order, followed by one blank line |
| Report.BlocksOfTwo | powerpoint_analyzer.py:228-230 | two results give `a + "\n\n" + b + "\n\n"` |
| Analyzer.LastTwo | powerpoint_analyzer.py:195 | `s[-2:]` is the last two elements, or the whole list when it is shorter |
| Analyzer.SeparateUploads | powerpoint_analyzer.py:157-180 | without combining, `ai_files` is the n labeled images in order, then the labeled snapshot (n + 1 files) |
| Analyzer.CombinedUploads | powerpoint_analyzer.py:182-195 | with combining and n >= 1 images, `ai_files` is exactly the composite, the last labeled image and the snapshot |
| Analyzer.CombiningWithoutPicturesFails | powerpoint_analyzer.py:182-185 | combining on a slide without pictures fails |
| Analyzer.FailureSticks | powerpoint_analyzer.py:145-147 | once a pass raises, the run ends with that error |
| Analyzer.TwoPasses | powerpoint_analyzer.py:145-147 | two passes succeed if and only if there are two slides and both go through, and then give their two replies in order |
| Analyzer.OnlyFirstTwoSlides | powerpoint_analyzer.py:145-230 | the run succeeds if and only if slides 0 and 1 exist and go through; the file then holds exactly their two replies, each followed by a blank line |
| Analyzer.ShortDeckFails | powerpoint_analyzer.py:145-147 | a deck with fewer than two slides ends with the index error at its length |
| Analyzer.ExtractSlideContent | powerpoint_analyzer.py:74-90 | the stripped text, the pictures in shape order, and the slide snapshot or its error |
| Analyzer.UploadSlideFiles | powerpoint_analyzer.py:157-196 | the uploads are the labeled images, the labeled snapshot and, when combining, the composite in front of the last two of those, or the combining error |
| Analyzer.ProcessSlide | powerpoint_analyzer.py:149-220 | one pass returns the slide's uploads with the instructions `preamble + "Slide {i+1}:\n" + text`, or the pass's error |
| Analyzer.CollectReplies | powerpoint_analyzer.py:145-225 | the loop collects the replies of passes 0 and 1 in order, or the first error |
| Analyzer.AnalyzePowerpoint | powerpoint_analyzer.py:123-230 | the file text is the output the run specifies, or the error that stops the run before writing |
| MainScript.SlidesProcessed | main.py:101 | `range(len - 1)` processes every slide but the last, and none of an empty deck |
| MainScript.Replies | main.py:101-161 | n passes collect exactly n replies |
| MainScript.NoPicturesNoUploads | main.py:109-112 | a slide without pictures sends no file, even when combining |
| MainScript.CombinedUploadIsAlone | main.py:125-138 | combining sends the composite alone, under the 0-based `combined_image_{i}.png` |
| MainScript.ReplyAnswersSlide | main.py:101-161 | reply k answers slide k |
| MainScript.RepliesUseFirstSlides | main.py:101-104 | the replies depend only on the slides the loop reaches |
| MainScript.LastSlideIgnored | main.py:101-166 | whatever the last slide holds, the output is that of the other slides |
| MainScript.ReplyInOutput | main.py:160-166 | each reply sits in the file in slide order, answering its own slide, followed by a blank line |
| MainScript.ProcessSlide | main.py:104-157 | one pass returns the labeled uploads, or the composite alone when combining, with the instructions |
| MainScript.CollectReplies | main.py:101-161 | the loop collects one reply per slide but the last, in order |
| MainScript.AnalyzePowerpoint | main.py:67-166 | the file text is every reply followed by a blank line |

## Left out

- The Gemini client is not modelled: `genai.configure`, `upload_file`, the `get_file` polling with `time.sleep`, and the "failed to process" exception of `wait_for_files_active`. An upload is modelled as the temporary path and the pixels saved there.
- The chat call itself is not modelled. The service is a function parameter (`Chat.Service`) from chat history and prompt to reply text.
- `load_dotenv`, the `GEMINI_API_KEY` lookup and the hard-coded invocation at the bottom of each script are environment glue and are left out.
- File I/O is not modelled: `save`, `os.remove` and `open`/`write`. The output file is the string written to it, and temporary files are their names.
- python-pptx parsing is left out. A deck is its page size in EMU plus the shapes of each slide. Shapes whose position is `None`, and picture bytes that fail to decode, are not modelled.
- Slides.ToPixels: computes exact truncation of `emu * 96 / 914400`. Float rounding in `length.inches * 96` is not modelled.
- Pillow internals are inputs (`Bitmaps.Toolkit`), not models. These are the default font's `textbbox` and glyph coverage, the blend of the (0, 0, 0, 128) tag over a pixel, and `resize` resampling. Image modes (RGB against RGBA) are not distinguished. That `resize((w, h))` answers a w by h bitmap is not built into `Toolkit`; it is the predicate `Bitmaps.ResizesExactly`, which the lemmas about painted boxes (`Snapshot.PasteTouchesItsBox`, `Snapshot.PicturePaintsItsBox`, `Snapshot.BoxedPictureWins`) require.
- Labeling.LabelStaysInTag: holds only under its stated assumptions about the font: ink inside the bounding box, and a box origin within 10 pixels of (0, 0). Pillow's default font is not modelled.
- Snapshot.GenerateSlideSnapshot: models the `resize` error as a box less than one pixel wide or high. Pillow's other `resize` errors, and those of `Image.open`, are not modelled.
- `extract_slide_content`'s unused `slide_index` parameter is dropped.
- The nested `add_id_to_image` of `main.py` (main.py:84-100) is the same code as the one in powerpoint_analyzer.py (powerpoint_analyzer.py:127-143), so both scripts use `Labeling.AddIdToImage` and `Staging.LabelAndUploadImages`.
- The two `extract_slide_content` functions share only their shape loop, which is `Slides.ExtractSlideContent`. The nested copy in `main.py` (main.py:71-82) takes no slide index and returns only the text and the images; its picture test is the literal 13, which is the value of `MSO_SHAPE_TYPE.PICTURE` (`Slides.PICTURE`). The module-level one in powerpoint_analyzer.py (powerpoint_analyzer.py:74-90) also makes the slide snapshot and returns it as a third value; that is `Analyzer.ExtractSlideContent`.
