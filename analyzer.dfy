/** `analyze_powerpoint` of the snapshot-aware pipeline: for slides 0 and 1 it
    extracts the text, the pictures and a snapshot, labels and uploads the
    pictures and the snapshot, optionally replaces the individual uploads by
    one composite (keeping the last two uploads), asks the service, and
    writes every reply followed by a blank line. */
module Analyzer {
  import opened Results
  import opened PyText
  import opened Bitmaps
  import opened Raster
  import opened Slides
  import opened Snapshot
  import opened Identifiers
  import opened Labeling
  import opened Composite
  import opened Chat
  import opened Staging
  import opened Report

  /** The fixed part of `analysis_instructions`, before the combined text. */
  const Preamble: string :=
    "Analyze the provided slides and images. Create a cohesive summary of the content, "
    + "integrating relevant information from both the text and images. "
    + "There are two types of images provided:\n"
    + "1. Individual images extracted from the slides (IMG_X_X)\n"
    + "2. Full slide snapshots (snapshot_X)\n\n"
    + "For each image or snapshot that adds value to the summary:\n"
    + "1. Reference the image using its ID (e.g., IMG_1_1 or snapshot_1)\n"
    + "2. Provide a brief, descriptive caption for the image or snapshot\n"
    + "3. Place the image reference immediately after the relevant text\n\n"
    + "Format image references as: [image src=IMG_X_X.png caption=\"Your caption here\"] "
    + "or [image src=snapshot_X.png caption=\"Your caption here\"]\n\n"
    + "Use the full slide snapshots to understand the overall context and layout. "
    + "Refer to individual images when discussing specific details. "
    + "Ignore any images that don't contribute significant information to the summary. "
    + "Focus on creating a flowing, informative summary that incorporates text and "
    + "image references seamlessly.\n\n"
    + "Here's the text content from the slides:\n"

  function Instructions(i: nat, text: string): string {
    Preamble + CombinedText(i, text)
  }

  /** The loop runs over `range(2)`, whatever the deck's length. */
  const SlidesAnalysed: nat := 2

  /** Python's `s[-2:]`: the last two elements, or all of them when fewer. */
  function LastTwo<T>(s: seq<T>): (r: seq<T>)
    ensures |r| == if |s| < 2 then |s| else 2
    ensures r == s[|s| - |r|..]
  {
    if |s| < 2 then s else s[|s| - 2..]
  }

  /** `ai_files` for slide `i`: each labeled image under its temporary name, then
      the labeled snapshot under `snapshot_{i+1}.png`; when combining, the
      composite of the labeled images followed by the last two of those
      uploads, and the failure of `zip(*())` when there is no image. */
  function SlideFiles(i: nat, labeled: seq<Bitmap>, labeledSnapshot: Bitmap, combine: bool): Result<seq<Upload>> {
    var individual := ImageUploads(i, labeled) + [Upload(SnapshotPath(SnapshotId(i, 0)), labeledSnapshot)];
    if !combine then Success(individual)
    else if labeled == [] then Failure(NothingToCombine)
    else Success([Upload(CompositePath(i), Concat(labeled))] + LastTwo(individual))
  }

  /** What slide `i` sends to the service, or the error that stops the run. */
  function SlideSubmission(deck: Deck, i: nat, shapes: seq<Shape>, combine: bool, addLabels: bool, kit: Toolkit): Result<Submission> {
    var snapshot :- SlideSnapshot(deck.slideWidth, deck.slideHeight, shapes, kit);
    var labeled := LabeledImages(i, Pictures(shapes), addLabels, kit);
    var files :- SlideFiles(i, labeled, Labeled(snapshot, SnapshotId(i, 0), addLabels, kit), combine);
    Success(Submission(files, Instructions(i, Strip(RawText(shapes)))))
  }

  /** What one pass of the slide loop produces from the slide index and the
      slide's shapes, up to the call to the service. */
  type Pass = (nat, seq<Shape>) -> Result<Submission>

  function SlidePass(deck: Deck, combine: bool, addLabels: bool, kit: Toolkit): Pass {
    (i: nat, shapes: seq<Shape>) => SlideSubmission(deck, i, shapes, combine, addLabels, kit)
  }

  /** The replies collected by the first `n` passes of the slide loop, or the
      first error: `prs.slides[i]` fails when the deck has no slide `i`. */
  function Replies(slides: seq<seq<Shape>>, n: nat, pass: Pass, ask: Service): Result<seq<string>> {
    if n == 0 then Success([])
    else
      var earlier :- Replies(slides, n - 1, pass, ask);
      var i := n - 1;
      if i >= |slides| then Failure(SlideIndexOutOfRange(i))
      else
        var submission :- pass(i, slides[i]);
        Success(earlier + [ProcessContent(ask, submission)])
  }

  /** The text of the output file, or the error that stops the run before it is written. */
  function Output(deck: Deck, combine: bool, addLabels: bool, kit: Toolkit, ask: Service): Result<string> {
    var replies :- Replies(deck.slides, SlidesAnalysed, SlidePass(deck, combine, addLabels, kit), ask);
    Success(Blocks(replies))
  }

  // ---------------------------------------------------------------------
  // The uploads of one slide

  /** Without combining, the service gets every labeled image in order under
      `temp_image_{i+1}_{k+1}.png`, then the labeled snapshot under
      `snapshot_{i+1}.png`. */
  lemma SeparateUploads(i: nat, labeled: seq<Bitmap>, labeledSnapshot: Bitmap)
    ensures SlideFiles(i, labeled, labeledSnapshot, false).Success?
    ensures var files := SlideFiles(i, labeled, labeledSnapshot, false).value;
      && |files| == |labeled| + 1
      && (forall k | 0 <= k < |labeled| :: files[k] == Upload("temp_image_" + Pair(i + 1, k + 1) + ".png", labeled[k]))
      && files[|labeled|] == Upload("snapshot_" + Decimal(i + 1) + ".png", labeledSnapshot)
  {
    SnapshotIdRoundTrip(i);
  }

  /** Combining sends exactly three files whatever the number of images: the
      composite, the LAST labeled image (the `[-2:]` slice keeps it along with
      the snapshot), and the labeled snapshot. */
  lemma CombinedUploads(i: nat, labeled: seq<Bitmap>, labeledSnapshot: Bitmap)
    requires labeled != []
    ensures SlideFiles(i, labeled, labeledSnapshot, true) == Success([
      Upload("combined_image_" + Decimal(i) + ".png", Concat(labeled)),
      Upload(ImagePath(i, |labeled| - 1), labeled[|labeled| - 1]),
      Upload(SnapshotPath(SnapshotId(i, 0)), labeledSnapshot)])
  {
    var n, uploads := |labeled|, ImageUploads(i, labeled);
    var snapshot := Upload(SnapshotPath(SnapshotId(i, 0)), labeledSnapshot);
    var individual := uploads + [snapshot];
    assert individual[n - 1] == uploads[n - 1] == Upload(ImagePath(i, n - 1), labeled[n - 1]);
    assert individual[n] == snapshot;
    assert LastTwo(individual) == individual[n - 1..] == [individual[n - 1], individual[n]];
    var composite := Upload(CompositePath(i), Concat(labeled));
    assert SlideFiles(i, labeled, labeledSnapshot, true) == Success([composite] + LastTwo(individual));
    assert [composite] + [individual[n - 1], individual[n]] == [composite, individual[n - 1], individual[n]];
  }

  /** Combining on a slide without pictures fails, even though the slide
      still has its snapshot to send. */
  lemma CombiningWithoutPicturesFails(deck: Deck, i: nat, shapes: seq<Shape>, addLabels: bool, kit: Toolkit)
    requires Pictures(shapes) == []
    requires SlideSnapshot(deck.slideWidth, deck.slideHeight, shapes, kit).Success?
    ensures SlideSubmission(deck, i, shapes, true, addLabels, kit) == Failure(NothingToCombine)
  {
  }

  // ---------------------------------------------------------------------
  // The run

  /** Once a pass fails, the run has failed with that error. */
  lemma {:induction false} FailureSticks(slides: seq<seq<Shape>>, n: nat, m: nat, pass: Pass, ask: Service)
    requires n <= m && Replies(slides, n, pass, ask).Failure?
    ensures Replies(slides, m, pass, ask) == Replies(slides, n, pass, ask)
    decreases m
  {
    if n < m {
      FailureSticks(slides, n, m - 1, pass, ask);
    }
  }

  /** Two passes succeed exactly when there are two slides and both go
      through, and then collect their two replies in order. */
  lemma TwoPasses(slides: seq<seq<Shape>>, pass: Pass, ask: Service)
    ensures Replies(slides, 2, pass, ask).Success?
      <==> |slides| >= 2 && pass(0, slides[0]).Success? && pass(1, slides[1]).Success?
    ensures Replies(slides, 2, pass, ask).Success? ==>
      Replies(slides, 2, pass, ask).value
      == [ProcessContent(ask, pass(0, slides[0]).value), ProcessContent(ask, pass(1, slides[1]).value)]
  {
    assert Replies(slides, 0, pass, ask) == Success([]);
  }

  /** The run succeeds exactly when the deck has at least two slides and
      slides 0 and 1 both go through; it then writes exactly their two replies,
      each followed by a blank line, and nothing about any later slide. */
  lemma OnlyFirstTwoSlides(deck: Deck, combine: bool, addLabels: bool, kit: Toolkit, ask: Service)
    ensures Output(deck, combine, addLabels, kit, ask).Success?
      <==> (&& |deck.slides| >= 2
            && SlideSubmission(deck, 0, deck.slides[0], combine, addLabels, kit).Success?
            && SlideSubmission(deck, 1, deck.slides[1], combine, addLabels, kit).Success?)
    ensures Output(deck, combine, addLabels, kit, ask).Success? ==>
      Output(deck, combine, addLabels, kit, ask).value
      == ProcessContent(ask, SlideSubmission(deck, 0, deck.slides[0], combine, addLabels, kit).value) + "\n\n"
         + ProcessContent(ask, SlideSubmission(deck, 1, deck.slides[1], combine, addLabels, kit).value) + "\n\n"
  {
    var pass := SlidePass(deck, combine, addLabels, kit);
    TwoPasses(deck.slides, pass, ask);
    var replies := Replies(deck.slides, 2, pass, ask);
    if replies.Success? {
      BlocksOfTwo(replies.value[0], replies.value[1]);
    }
  }

  /** A deck shorter than two slides stops the run with the index error, once
      every slide it does have has gone through. */
  lemma ShortDeckFails(deck: Deck, combine: bool, addLabels: bool, kit: Toolkit, ask: Service)
    requires |deck.slides| < 2
    requires |deck.slides| == 1 ==> SlideSubmission(deck, 0, deck.slides[0], combine, addLabels, kit).Success?
    ensures Output(deck, combine, addLabels, kit, ask) == Failure(SlideIndexOutOfRange(|deck.slides|))
  {
    var n, pass := |deck.slides|, SlidePass(deck, combine, addLabels, kit);
    assert Replies(deck.slides, 0, pass, ask) == Success([]);
    assert Replies(deck.slides, n + 1, pass, ask) == Failure(SlideIndexOutOfRange(n));
    FailureSticks(deck.slides, n + 1, SlidesAnalysed, pass, ask);
  }

  // ---------------------------------------------------------------------
  // The methods

  /** `extract_slide_content(slide, i)`: the stripped text, the opened pictures
      and the snapshot of the slide. */
  method ExtractSlideContent(deck: Deck, shapes: seq<Shape>, kit: Toolkit)
    returns (text: string, images: seq<Image>, snapshot: Result<Image>)
    ensures text == Strip(RawText(shapes))
    ensures Contents(images) == Pictures(shapes)
    ensures snapshot.Failure? ==> SlideSnapshot(deck.slideWidth, deck.slideHeight, shapes, kit) == Failure(snapshot.error)
    ensures snapshot.Success? ==> SlideSnapshot(deck.slideWidth, deck.slideHeight, shapes, kit) == Success(snapshot.value.Content())
  {
    text, images := Slides.ExtractSlideContent(shapes);
    snapshot := GenerateSlideSnapshot(deck.slideWidth, deck.slideHeight, shapes, kit);
  }

  /** The uploads of one slide after extraction: the labeled images, the
      labeled snapshot, and, when combining, the composite in front of the
      last two of those. */
  method UploadSlideFiles(i: nat, images: seq<Image>, snapshot: Image, combine: bool, addLabels: bool, kit: Toolkit)
    returns (files: Result<seq<Upload>>)
    ensures files == SlideFiles(i, LabeledImages(i, Contents(images), addLabels, kit),
                                Labeled(snapshot.Content(), SnapshotId(i, 0), addLabels, kit), combine)
  {
    var processed, aiFiles := LabelAndUploadImages(i, images, addLabels, kit);
    // The snapshot loop runs over the one-element list `[snapshot1]`, so its `idx` is 0.
    var snapshotId := SnapshotId(i, 0);
    var snapshotWithId := LabelCopy(snapshot, snapshotId, addLabels, kit);
    aiFiles := aiFiles + [Upload(SnapshotPath(snapshotId), snapshotWithId.Content())];
    if combine {
      var combined := CombineImages(processed);
      if combined.Failure? {
        return Failure(combined.error);
      }
      aiFiles := [Upload(CompositePath(i), combined.value)] + LastTwo(aiFiles);
    }
    return Success(aiFiles);
  }

  /** One pass of the slide loop up to the call to the service. */
  method ProcessSlide(deck: Deck, i: nat, shapes: seq<Shape>, combine: bool, addLabels: bool, kit: Toolkit)
    returns (submission: Result<Submission>)
    ensures submission == SlideSubmission(deck, i, shapes, combine, addLabels, kit)
  {
    var text, images, snapshot := ExtractSlideContent(deck, shapes, kit);
    if snapshot.Failure? {
      return Failure(snapshot.error);
    }
    var files := UploadSlideFiles(i, images, snapshot.value, combine, addLabels, kit);
    if files.Failure? {
      return Failure(files.error);
    }
    return Success(Submission(files.value, Instructions(i, text)));
  }

  /** The slide loop of `analyze_powerpoint`: `range(2)` passes, each indexing
      the deck, preparing the slide and asking the service. */
  method CollectReplies(deck: Deck, combine: bool, addLabels: bool, kit: Toolkit, ask: Service)
    returns (replies: Result<seq<string>>)
    ensures replies == Replies(deck.slides, SlidesAnalysed, SlidePass(deck, combine, addLabels, kit), ask)
  {
    ghost var pass := SlidePass(deck, combine, addLabels, kit);
    var results: seq<string> := [];
    for i := 0 to SlidesAnalysed
      invariant Replies(deck.slides, i, pass, ask) == Success(results)
    {
      if i >= |deck.slides| {
        FailureSticks(deck.slides, i + 1, SlidesAnalysed, pass, ask);
        return Failure(SlideIndexOutOfRange(i));
      }
      var submission := ProcessSlide(deck, i, deck.slides[i], combine, addLabels, kit);
      if submission.Failure? {
        FailureSticks(deck.slides, i + 1, SlidesAnalysed, pass, ask);
        return Failure(submission.error);
      }
      var result := ProcessContent(ask, submission.value);
      results := results + [result];
    }
    return Success(results);
  }

  /** `analyze_powerpoint`, with the output file modelled as the text written to it. */
  method AnalyzePowerpoint(deck: Deck, combine: bool, addLabels: bool, kit: Toolkit, ask: Service)
    returns (output: Result<string>)
    ensures output == Output(deck, combine, addLabels, kit, ask)
  {
    var replies := CollectReplies(deck, combine, addLabels, kit, ask);
    if replies.Failure? {
      return Failure(replies.error);
    }
    var written := WriteResults(replies.value);
    return Success(written);
  }
}
