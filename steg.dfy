/** stegseek over the wordlist tiers: the first zero exit status wins. */
module Steg {
  import opened Paths
  import opened Attempts

  /** Every stegseek run for `filepath` writes the same `<output_dir>/<stem>_extracted.out`. */
  function OutputFile(filepath: string, outputDir: string): string
  {
    Join(outputDir, Stem(filepath) + "_extracted.out")
  }

  /** The stegseek runs in wordlist order, were none of them to succeed. */
  function Planned(filepath: string, wordlists: seq<string>, outputFile: string): (p: seq<Action>)
    ensures |p| == |wordlists|
  {
    seq(|wordlists|, i requires 0 <= i < |wordlists| => Stegseek(filepath, wordlists[i], outputFile))
  }

  /** What `StegEngine.run` does, given the exit status of each possible run. */
  function RunSpec(filepath: string, wordlists: seq<string>, outputDir: string, exitCode: Action -> int): Outcome
  {
    var planned := Planned(filepath, wordlists, OutputFile(filepath, outputDir));
    FirstSuccess(planned, ZeroExit(planned, exitCode))
  }

  /** `StegEngine.run`: tries the wordlists in order and stops at the first zero exit. */
  method Run(filepath: string, wordlists: seq<string>, outputDir: string, exitCode: Action -> int)
    returns (ok: bool, actions: seq<Action>)
    ensures Outcome(ok, actions) == RunSpec(filepath, wordlists, outputDir, exitCode)
  {
    var outputFile := OutputFile(filepath, outputDir);
    ghost var planned := Planned(filepath, wordlists, outputFile);
    ghost var hits := ZeroExit(planned, exitCode);
    actions := [];
    for i := 0 to |wordlists|
      invariant actions == planned[..i]
      invariant FirstTrue(hits) >= i
    {
      var run := Stegseek(filepath, wordlists[i], outputFile);
      assert run == planned[i];
      TakeOneMore(planned, i);
      actions := actions + [run];
      if exitCode(run) == 0 {
        StopAtSuccess(planned, hits, i);
        return true, actions;
      }
      PassFailure(hits, i);
    }
    assert planned[..|wordlists|] == planned;
    return false, actions;
  }

  /**
   * stegseek succeeds iff some wordlist gives a zero exit status; the runs
   * follow the wordlist order and cover every wordlist on failure (where
   * they stop is `RunSpecStops`); an empty list runs nothing, and every
   * run writes the same output file.
   */
  lemma {:induction false} RunSpecFacts(filepath: string, wordlists: seq<string>, outputDir: string, exitCode: Action -> int)
    ensures var r := RunSpec(filepath, wordlists, outputDir, exitCode);
      && (r.ok <==> exists i :: 0 <= i < |wordlists|
                      && exitCode(Stegseek(filepath, wordlists[i], OutputFile(filepath, outputDir))) == 0)
      && (wordlists == [] ==> r == Outcome(false, []))
      && (r.ok ==> r.actions != []) && (!r.ok ==> |r.actions| == |wordlists|)
      && |r.actions| <= |wordlists|
      && (forall k :: 0 <= k < |r.actions| ==>
            r.actions[k] == Stegseek(filepath, wordlists[k], OutputFile(filepath, outputDir)))
      && (forall a :: a in r.actions ==> a.Stegseek? && a.image == filepath
                                         && a.outFile == OutputFile(filepath, outputDir))
  {
    var planned := Planned(filepath, wordlists, OutputFile(filepath, outputDir));
    var hits := ZeroExit(planned, exitCode);
    FirstSuccessFacts(planned, hits);
    var r := RunSpec(filepath, wordlists, outputDir, exitCode);
    assert r.actions == planned[..|r.actions|];
    forall a | a in r.actions
      ensures a.Stegseek? && a.image == filepath && a.outFile == OutputFile(filepath, outputDir)
    {
      var k :| 0 <= k < |r.actions| && r.actions[k] == a;
      assert a == planned[k];
    }
    forall i | 0 <= i < |wordlists| ensures hits[i] <==> exitCode(Stegseek(filepath, wordlists[i], OutputFile(filepath, outputDir))) == 0 {
      assert planned[i] == Stegseek(filepath, wordlists[i], OutputFile(filepath, outputDir));
    }
  }

  /**
   * The runs stop at the first success: on success the last run exited with
   * status 0 and every earlier one did not; on failure none did.
   */
  lemma RunSpecStops(filepath: string, wordlists: seq<string>, outputDir: string, exitCode: Action -> int)
    ensures var r := RunSpec(filepath, wordlists, outputDir, exitCode);
      && (r.ok ==> r.actions != [] && exitCode(r.actions[|r.actions| - 1]) == 0)
      && (forall k :: 0 <= k < |r.actions| - 1 ==> exitCode(r.actions[k]) != 0)
      && (!r.ok ==> forall k :: 0 <= k < |r.actions| ==> exitCode(r.actions[k]) != 0)
  {
    var planned := Planned(filepath, wordlists, OutputFile(filepath, outputDir));
    FirstSuccessStops(planned, ZeroExit(planned, exitCode));
  }
}
