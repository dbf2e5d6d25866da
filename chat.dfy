/** What reaches the content-analysis service: uploaded files, and the chat
    history `process_content` builds from them and the instruction text. */
module Chat {
  import opened Results
  import opened PyText
  import opened Bitmaps

  /** The handle `upload_file` returns for a saved image: the temporary path it
      was saved under and the pixels that were saved. */
  datatype Upload = Upload(path: string, image: Bitmap)

  datatype Part = FilePart(file: Upload) | TextPart(text: string)

  datatype Turn = Turn(role: string, parts: seq<Part>)

  /** The message `process_content` sends once the history is in place. */
  const Prompt: string := "Analyze the provided content as instructed."

  /** The service's reply to a chat history and a message. */
  type Service = (seq<Turn>, string) -> string

  /** What one slide sends: the uploads, in `ai_files` order, and the
      instruction text. */
  datatype Submission = Submission(files: seq<Upload>, instructions: string)

  /** `f"Slide {i + 1}:\n{text}"`: the slide's extracted text under a 1-based
      heading. */
  function CombinedText(i: nat, text: string): string {
    "Slide " + Decimal(i + 1) + ":\n" + text
  }

  /** The instruction text is a fixed preamble followed by the combined text,
      and both the 1-based slide number and the slide's own text can be read
      back from it. */
  lemma InstructionsCarrySlide(preamble: string, i: nat, text: string)
    ensures var instructions, number := preamble + CombinedText(i, text), Decimal(i + 1);
      && instructions[..|preamble|] == preamble
      && |preamble| + 6 + |number| + 2 + |text| == |instructions|
      && ParseDecimal(instructions[|preamble| + 6..|preamble| + 6 + |number|]) == Some(i + 1)
      && instructions[|instructions| - |text|..] == text
  {
    var instructions, number := preamble + CombinedText(i, text), Decimal(i + 1);
    assert instructions[|preamble| + 6..|preamble| + 6 + |number|] == number;
    DecimalRoundTrip(i + 1);
  }

  /** The history `process_content(files, text_content)` starts the chat with:
      one user turn per file, in order, then one user turn with the text. */
  function ChatHistory(files: seq<Upload>, textContent: string): (h: seq<Turn>)
    ensures |h| == |files| + 1
    ensures forall k | 0 <= k < |files| :: h[k] == Turn("user", [FilePart(files[k])])
    ensures h[|files|] == Turn("user", [TextPart(textContent)])
  {
    seq(|files|, k requires 0 <= k < |files| => Turn("user", [FilePart(files[k])]))
      + [Turn("user", [TextPart(textContent)])]
  }

  /** The files a history carries, in turn order. */
  function FilesIn(h: seq<Turn>): seq<Upload> {
    if h == [] then []
    else FilesIn(h[..|h| - 1]) + FileParts(h[|h| - 1].parts)
  }

  function FileParts(ps: seq<Part>): seq<Upload> {
    if ps == [] then []
    else FileParts(ps[..|ps| - 1]) + if ps[|ps| - 1].FilePart? then [ps[|ps| - 1].file] else []
  }

  /** The texts a history carries, in turn order. */
  function TextsIn(h: seq<Turn>): seq<string> {
    if h == [] then []
    else TextsIn(h[..|h| - 1]) + TextParts(h[|h| - 1].parts)
  }

  function TextParts(ps: seq<Part>): seq<string> {
    if ps == [] then []
    else TextParts(ps[..|ps| - 1]) + if ps[|ps| - 1].TextPart? then [ps[|ps| - 1].text] else []
  }

  /** `process_content(files, text_content)`: the service's reply to the history
      built from a slide's submission and the fixed prompt. */
  function ProcessContent(ask: Service, submission: Submission): string {
    ask(ChatHistory(submission.files, submission.instructions), Prompt)
  }

  /** The first `n` turns of a history of uploads carry exactly those uploads and no text. */
  lemma {:induction false} FileTurns(files: seq<Upload>, t: string, n: nat)
    requires n <= |files|
    ensures FilesIn(ChatHistory(files, t)[..n]) == files[..n]
    ensures TextsIn(ChatHistory(files, t)[..n]) == []
  {
    var h := ChatHistory(files, t);
    if n > 0 {
      FileTurns(files, t, n - 1);
      var ps := [FilePart(files[n - 1])];
      assert h[..n][..n - 1] == h[..n - 1];
      assert h[..n][n - 1] == Turn("user", ps);
      assert ps[..0] == [];
      assert FileParts(ps) == [files[n - 1]];
      assert TextParts(ps) == [];
      assert files[..n] == files[..n - 1] + [files[n - 1]];
    }
  }

  /** The service sees exactly the uploaded files, in `ai_files` order, and one
      text, the instructions. */
  lemma HistoryCarriesFilesThenText(files: seq<Upload>, t: string)
    ensures FilesIn(ChatHistory(files, t)) == files
    ensures TextsIn(ChatHistory(files, t)) == [t]
  {
    var h := ChatHistory(files, t);
    FileTurns(files, t, |files|);
    assert h[..|h| - 1] == h[..|files|];
    assert files[..|files|] == files;
    var ps := [TextPart(t)];
    assert h[|h| - 1] == Turn("user", ps);
    assert ps[..0] == [];
    assert FileParts(ps) == [];
    assert TextParts(ps) == [t];
  }
}
