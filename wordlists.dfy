/** The wordlist tiers, cheapest first. */
module Wordlists {
  import opened Strings
  import opened Paths

  /** The tiers present among the `existing` paths, in escalation order. */
  function Tiers(brockyou: string, passphrases: string, existing: set<string>): seq<string>
  {
    (if brockyou in existing then [brockyou] else []) +
    (if passphrases in existing then [passphrases] else [])
  }

  /** Knows where the two tier files live. */
  class WordlistManager {
    const wordlistDir: string
    const brockyou: string
    const passphrases: string

    predicate Valid()
    {
      && brockyou == Join(wordlistDir, "brockyou.txt")
      && passphrases == Join(wordlistDir, "passphrases.txt")
    }

    constructor (wordlistDir: string)
      ensures this.wordlistDir == wordlistDir
      ensures Valid()
    {
      this.wordlistDir := wordlistDir;
      brockyou := Join(wordlistDir, "brockyou.txt");
      passphrases := Join(wordlistDir, "passphrases.txt");
    }

    /**
     * `escalating_lists`: the tier files that exist, brockyou first.
     * `existing` is the set of paths `os.path.exists` holds for. Each tier
     * is listed iff it exists, brockyou ahead of passphrases, none twice.
     */
    method EscalatingLists(existing: set<string>) returns (lists: seq<string>)
      requires Valid()
      ensures lists == Tiers(brockyou, passphrases, existing)
      ensures |lists| <= 2
      ensures forall p :: p in lists <==> p in existing && (p == brockyou || p == passphrases)
      ensures brockyou in existing && passphrases in existing ==> lists == [brockyou, passphrases]
      ensures forall i, j :: 0 <= i < j < |lists| ==> lists[i] != lists[j]
      ensures lists == [] <==> brockyou !in existing && passphrases !in existing
    {
      DistinctTiers();
      lists := [];
      if brockyou in existing {
        lists := lists + [brockyou];
      }
      if passphrases in existing {
        lists := lists + [passphrases];
      }
    }

    /** The two tier files are different paths. */
    lemma DistinctTiers()
      requires Valid()
      ensures brockyou != passphrases
    {
      assert |Join(wordlistDir, "brockyou.txt")| + 3 == |Join(wordlistDir, "passphrases.txt")|;
    }
  }
}
