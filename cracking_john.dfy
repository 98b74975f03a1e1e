/** John the Ripper over the wordlist tiers: the first zero exit status wins. */
module John {
  import opened Attempts

  /** The John runs in wordlist order, all sharing `--pot=<outputPath>`. */
  function Planned(hashfile: string, wordlists: seq<string>, outputPath: string): (p: seq<Action>)
    ensures |p| == |wordlists|
  {
    seq(|wordlists|, i requires 0 <= i < |wordlists| => John(hashfile, wordlists[i], outputPath))
  }

  /** What `JohnEngine.crack` does, given the exit status of each possible run. */
  function CrackSpec(hashfile: string, wordlists: seq<string>, outputPath: string, exitCode: Action -> int): Outcome
  {
    var planned := Planned(hashfile, wordlists, outputPath);
    FirstSuccess(planned, ZeroExit(planned, exitCode))
  }

  /** `JohnEngine.crack`: tries the wordlists in order and stops at the first zero exit. */
  method Crack(hashfile: string, wordlists: seq<string>, outputPath: string, exitCode: Action -> int)
    returns (ok: bool, actions: seq<Action>)
    ensures Outcome(ok, actions) == CrackSpec(hashfile, wordlists, outputPath, exitCode)
  {
    ghost var planned := Planned(hashfile, wordlists, outputPath);
    ghost var hits := ZeroExit(planned, exitCode);
    actions := [];
    for i := 0 to |wordlists|
      invariant actions == planned[..i]
      invariant FirstTrue(hits) >= i
    {
      var run := John(hashfile, wordlists[i], outputPath);
      assert run == planned[i];
      TakeOneMore(planned, i);
      actions := actions + [run];
      if exitCode(run) == 0 {
        StopAtSuccess(planned, hits, i);
        return true, actions;
      }
      PassFailure(hits, i);
    }
    assert planned[..|wordlists|] == planned;
    return false, actions;
  }

  /**
   * John succeeds iff some wordlist gives a zero exit status; the runs
   * follow the wordlist order and cover every wordlist on failure (where
   * they stop is `CrackSpecStops`); an empty list runs nothing, and every
   * run passes the same pot path.
   */
  lemma {:induction false} CrackSpecFacts(hashfile: string, wordlists: seq<string>, outputPath: string, exitCode: Action -> int)
    ensures var r := CrackSpec(hashfile, wordlists, outputPath, exitCode);
      && (r.ok <==> exists i :: 0 <= i < |wordlists| && exitCode(John(hashfile, wordlists[i], outputPath)) == 0)
      && (wordlists == [] ==> r == Outcome(false, []))
      && (r.ok ==> r.actions != []) && (!r.ok ==> |r.actions| == |wordlists|)
      && |r.actions| <= |wordlists|
      && (forall k :: 0 <= k < |r.actions| ==> r.actions[k] == John(hashfile, wordlists[k], outputPath))
      && (forall a :: a in r.actions ==> a.John? && a.target == hashfile && a.potFile == outputPath)
  {
    var planned := Planned(hashfile, wordlists, outputPath);
    var hits := ZeroExit(planned, exitCode);
    FirstSuccessFacts(planned, hits);
    var r := CrackSpec(hashfile, wordlists, outputPath, exitCode);
    assert r.actions == planned[..|r.actions|];
    forall a | a in r.actions ensures a.John? && a.target == hashfile && a.potFile == outputPath {
      var k :| 0 <= k < |r.actions| && r.actions[k] == a;
      assert a == planned[k];
    }
    forall i | 0 <= i < |wordlists| ensures hits[i] <==> exitCode(John(hashfile, wordlists[i], outputPath)) == 0 {
      assert planned[i] == John(hashfile, wordlists[i], outputPath);
    }
  }

  /**
   * The runs stop at the first success: on success the last run exited with
   * status 0 and every earlier one did not; on failure none did.
   */
  lemma CrackSpecStops(hashfile: string, wordlists: seq<string>, outputPath: string, exitCode: Action -> int)
    ensures var r := CrackSpec(hashfile, wordlists, outputPath, exitCode);
      && (r.ok ==> r.actions != [] && exitCode(r.actions[|r.actions| - 1]) == 0)
      && (forall k :: 0 <= k < |r.actions| - 1 ==> exitCode(r.actions[k]) != 0)
      && (!r.ok ==> forall k :: 0 <= k < |r.actions| ==> exitCode(r.actions[k]) != 0)
  {
    var planned := Planned(hashfile, wordlists, outputPath);
    FirstSuccessStops(planned, ZeroExit(planned, exitCode));
  }
}
