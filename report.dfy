/** The output file: every collected result followed by a blank line. */
module Report {

  /** The text `for result in results: f.write(result + "\n\n")` leaves in the file. */
  function Blocks(results: seq<string>): string {
    if results == [] then ""
    else Blocks(results[..|results| - 1]) + results[|results| - 1] + "\n\n"
  }

  /** The writing loop, with the file modelled as the text written so far. */
  method WriteResults(results: seq<string>) returns (written: string)
    ensures written == Blocks(results)
  {
    written := "";
    for k := 0 to |results|
      invariant written == Blocks(results[..k])
    {
      assert results[..k + 1][..k] == results[..k];
      written := written + results[k] + "\n\n";
    }
    assert results[..|results|] == results;
  }

  /** Blocks of consecutive runs of results concatenate. */
  lemma {:induction false} BlocksAppend(a: seq<string>, b: seq<string>)
    ensures Blocks(a + b) == Blocks(a) + Blocks(b)
    decreases |b|
  {
    if b == [] {
      assert a + b == a;
    } else {
      var init, last := b[..|b| - 1], b[|b| - 1];
      BlocksAppend(a, init);
      assert (a + b)[..|a + b| - 1] == a + init;
      assert Blocks(a + b) == Blocks(a + init) + last + "\n\n";
      assert Blocks(b) == Blocks(init) + last + "\n\n";
    }
  }

  /** Each result appears whole, in order, right after the blocks of the results
      before it and followed by one blank line. */
  lemma ResultAt(results: seq<string>, k: nat)
    requires k < |results|
    ensures Blocks(results) == Blocks(results[..k]) + results[k] + "\n\n" + Blocks(results[k + 1..])
  {
    var upTo, after := results[..k + 1], results[k + 1..];
    calc {
      Blocks(results);
      { assert results == upTo + after; }
      Blocks(upTo + after);
      { BlocksAppend(upTo, after); }
      Blocks(upTo) + Blocks(after);
      { assert upTo[..k] == results[..k]; }
      Blocks(results[..k]) + results[k] + "\n\n" + Blocks(after);
    }
  }

  /** Two results: each followed by one blank line. */
  lemma BlocksOfTwo(a: string, b: string)
    ensures Blocks([a, b]) == a + "\n\n" + b + "\n\n"
  {
    assert [a, b][..1] == [a];
    assert [a][..0] == [];
    assert Blocks([a]) == "" + a + "\n\n";
    assert Blocks([a, b]) == Blocks([a]) + b + "\n\n";
  }
}
