/** `analyze_powerpoint` of the earlier pipeline: for every slide but the last
    it extracts the text and the pictures, labels and uploads the pictures,
    optionally replaces them by one composite, asks the service, and writes
    every reply followed by a blank line. No snapshot is made. */
module MainScript {
  import opened PyText
  import opened Bitmaps
  import opened Slides
  import opened Identifiers
  import opened Composite
  import opened Chat
  import opened Staging
  import opened Report

  /** The fixed part of `analysis_instructions`, before the combined text. */
  const Preamble: string :=
    "Analyze the provided slides and images. Create a cohesive summary of the content, "
    + "integrating relevant information from both the text and images. For each image that "
    + "adds value to the summary:\n"
    + "1. Reference the image using its ID (e.g., IMG_1_1)\n"
    + "2. Provide a brief, descriptive caption for the image\n"
    + "3. Place the image reference immediately after the relevant text\n\n"
    + "Format image references as: [image src=IMG_X_X.png caption=\"Your caption here\"]\n\n"
    + "Ignore any images that don't contribute significant information to the summary. "
    + "Focus on creating a flowing, informative summary that incorporates text and "
    + "image references seamlessly.\n\n"
    + "Here's the text content from the slides:\n"

  function Instructions(i: nat, text: string): string {
    Preamble + CombinedText(i, text)
  }

  /** `len(range(n - 1))`: every slide but the last, and none of an empty deck. */
  function SlidesProcessed(n: nat): (k: nat)
    ensures k + 1 == n || (n == 0 && k == 0)
    ensures k <= n && (n > 0 ==> k < n)
  {
    if n == 0 then 0 else n - 1
  }

  /** `ai_files` for slide `i`: nothing when the slide has no picture; otherwise
      the composite alone when combining, or each labeled image under its
      temporary name. */
  function SlideFiles(i: nat, labeled: seq<Bitmap>, combine: bool): seq<Upload> {
    if labeled == [] then []
    else if combine then [Upload(CompositePath(i), Concat(labeled))]
    else ImageUploads(i, labeled)
  }

  /** What slide `i` sends to the service. */
  function SlideSubmission(i: nat, shapes: seq<Shape>, combine: bool, addLabels: bool, kit: Toolkit): Submission {
    var labeled := LabeledImages(i, Pictures(shapes), addLabels, kit);
    Submission(SlideFiles(i, labeled, combine), Instructions(i, Strip(RawText(shapes))))
  }

  /** What one pass of the slide loop produces from the slide index and the
      slide's shapes, up to the call to the service. */
  type Pass = (nat, seq<Shape>) -> Submission

  function SlidePass(combine: bool, addLabels: bool, kit: Toolkit): Pass {
    (i: nat, shapes: seq<Shape>) => SlideSubmission(i, shapes, combine, addLabels, kit)
  }

  /** The replies collected by the first `n` passes of the slide loop. */
  function Replies(slides: seq<seq<Shape>>, n: nat, pass: Pass, ask: Service): (rs: seq<string>)
    requires n <= |slides|
    ensures |rs| == n
  {
    if n == 0 then []
    else Replies(slides, n - 1, pass, ask) + [ProcessContent(ask, pass(n - 1, slides[n - 1]))]
  }

  /** The text of the output file. */
  function Output(deck: Deck, combine: bool, addLabels: bool, kit: Toolkit, ask: Service): string {
    Blocks(Replies(deck.slides, SlidesProcessed(|deck.slides|), SlidePass(combine, addLabels, kit), ask))
  }

  // ---------------------------------------------------------------------
  // The uploads of one slide

  /** A slide without pictures uploads nothing, so the service sees only the
      instructions. */
  lemma NoPicturesNoUploads(i: nat, shapes: seq<Shape>, combine: bool, addLabels: bool, kit: Toolkit)
    requires Pictures(shapes) == []
    ensures SlideSubmission(i, shapes, combine, addLabels, kit).files == []
  {
  }

  /** Combining sends the composite alone, under `combined_image_{i}.png`
      (0-based, unlike the image names). */
  lemma CombinedUploadIsAlone(i: nat, labeled: seq<Bitmap>)
    requires labeled != []
    ensures SlideFiles(i, labeled, true) == [Upload("combined_image_" + Decimal(i) + ".png", Concat(labeled))]
  {
  }

  // ---------------------------------------------------------------------
  // The run

  /** Reply `k` answers slide `k`. */
  lemma {:induction false} ReplyAnswersSlide(slides: seq<seq<Shape>>, n: nat, pass: Pass, ask: Service, k: nat)
    requires k < n <= |slides|
    ensures Replies(slides, n, pass, ask)[k] == ProcessContent(ask, pass(k, slides[k]))
    decreases n
  {
    if k < n - 1 {
      ReplyAnswersSlide(slides, n - 1, pass, ask, k);
    }
  }

  /** The replies depend only on the slides the passes reach. */
  lemma {:induction false} RepliesUseFirstSlides(slides: seq<seq<Shape>>, more: seq<seq<Shape>>, n: nat, pass: Pass, ask: Service)
    requires n <= |slides|
    ensures Replies(slides + more, n, pass, ask) == Replies(slides, n, pass, ask)
    decreases n
  {
    if n > 0 {
      RepliesUseFirstSlides(slides, more, n - 1, pass, ask);
      assert (slides + more)[n - 1] == slides[n - 1];
    }
  }

  /** The output holds one reply per slide but the last, in slide order, each
      followed by a blank line; the last slide, whatever it holds, never
      reaches the service. */
  lemma LastSlideIgnored(deck: Deck, last: seq<Shape>, combine: bool, addLabels: bool, kit: Toolkit, ask: Service)
    ensures var slides := deck.slides + [last];
      Output(Deck(deck.slideWidth, deck.slideHeight, slides), combine, addLabels, kit, ask)
      == Blocks(Replies(deck.slides, |deck.slides|, SlidePass(combine, addLabels, kit), ask))
  {
    RepliesUseFirstSlides(deck.slides, [last], |deck.slides|, SlidePass(combine, addLabels, kit), ask);
  }

  /** Each reply sits in the output in slide order, answering its own slide. */
  lemma ReplyInOutput(deck: Deck, combine: bool, addLabels: bool, kit: Toolkit, ask: Service, k: nat)
    requires k + 1 < |deck.slides|
    ensures var rs := Replies(deck.slides, |deck.slides| - 1, SlidePass(combine, addLabels, kit), ask);
      && rs[k] == ProcessContent(ask, SlideSubmission(k, deck.slides[k], combine, addLabels, kit))
      && Output(deck, combine, addLabels, kit, ask) == Blocks(rs[..k]) + rs[k] + "\n\n" + Blocks(rs[k + 1..])
  {
    var pass := SlidePass(combine, addLabels, kit);
    var rs := Replies(deck.slides, |deck.slides| - 1, pass, ask);
    assert SlidesProcessed(|deck.slides|) == |deck.slides| - 1;
    assert Output(deck, combine, addLabels, kit, ask) == Blocks(rs);
    ReplyAnswersSlide(deck.slides, |deck.slides| - 1, pass, ask, k);
    assert pass(k, deck.slides[k]) == SlideSubmission(k, deck.slides[k], combine, addLabels, kit);
    ResultAt(rs, k);
  }

  // ---------------------------------------------------------------------
  // The methods

  /** One pass of the slide loop up to the call to the service. */
  method ProcessSlide(i: nat, shapes: seq<Shape>, combine: bool, addLabels: bool, kit: Toolkit)
    returns (submission: Submission)
    ensures submission == SlideSubmission(i, shapes, combine, addLabels, kit)
  {
    var text, images := Slides.ExtractSlideContent(shapes);
    var processed, files := LabelAndUploadImages(i, images, addLabels, kit);
    if |images| > 0 && combine {
      var combined := CombineImages(processed);
      files := [Upload(CompositePath(i), combined.value)];
    }
    submission := Submission(files, Instructions(i, text));
  }

  /** The slide loop of `analyze_powerpoint`: `range(len(prs.slides) - 1)`. */
  method CollectReplies(deck: Deck, combine: bool, addLabels: bool, kit: Toolkit, ask: Service)
    returns (replies: seq<string>)
    ensures replies == Replies(deck.slides, SlidesProcessed(|deck.slides|), SlidePass(combine, addLabels, kit), ask)
  {
    ghost var pass := SlidePass(combine, addLabels, kit);
    replies := [];
    var count := SlidesProcessed(|deck.slides|);
    for i := 0 to count
      invariant replies == Replies(deck.slides, i, pass, ask)
    {
      var submission := ProcessSlide(i, deck.slides[i], combine, addLabels, kit);
      var result := ProcessContent(ask, submission);
      replies := replies + [result];
    }
  }

  /** `analyze_powerpoint`, with the output file modelled as the text written to it. */
  method AnalyzePowerpoint(deck: Deck, combine: bool, addLabels: bool, kit: Toolkit, ask: Service)
    returns (output: string)
    ensures output == Output(deck, combine, addLabels, kit, ask)
  {
    var replies := CollectReplies(deck, combine, addLabels, kit, ask);
    output := WriteResults(replies);
  }
}
