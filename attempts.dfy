/**
 * External program runs and the "try each wordlist in order, stop at the
 * first success" pattern shared by the stegseek, John and hashcat loops.
 */
module Attempts {

  /**
   * One run of an external program, with the arguments that differ from
   * run to run; the fixed flags of each command are given beside it.
   */
  datatype Action =
      /** `stegseek <image> <wordlist> <outFile>` */
    | Stegseek(image: string, wordlist: string, outFile: string)
      /** `zsteg -a <image>` */
    | Zsteg(image: string)
      /**
       * `hashcat -m <mode> -a 0 <target> <wordlist> --potfile-path <potFile>
       * --outfile <outFile> --outfile-format 2 --quiet --force`, followed by
       * `hashcat --show` on the same target, mode and potfile
       */
    | Hashcat(target: string, mode: int, wordlist: string, potFile: string, outFile: string)
      /** `john --wordlist=<wordlist> <target> --pot=<potFile>` */
    | John(target: string, wordlist: string, potFile: string)
      /** `pkcrack -C <encryptedZip> -c <plaintextFile> -P <plaintextZip> -p <plaintextFile> -d <outputZip>` */
    | Pkcrack(encryptedZip: string, plaintextZip: string, plaintextFile: string, outputZip: string)
      /** the known-plaintext backend the per-file handler calls on a ZipCrypto archive */
    | KnownPlaintext(archive: string, decryptedZip: string)
      /** extraction of a zip archive into a directory */
    | Extract(zip: string, outDir: string)

  /** A file written by an engine, with its whole content. */
  datatype Written = Written(path: string, text: string)

  /** What a sequence of attempts reports: success, and the runs it made in order. */
  datatype Outcome = Outcome(ok: bool, actions: seq<Action>)

  /** Index of the first `true` in `hits`, or `|hits|` when there is none. */
  function FirstTrue(hits: seq<bool>): (i: nat)
    ensures i <= |hits|
  {
    if hits == [] || hits[0] then 0 else 1 + FirstTrue(hits[1..])
  }

  /** Everything before the index `FirstTrue` finds is `false`, and the index itself is `true`. */
  lemma {:induction false} FirstTrueFacts(hits: seq<bool>)
    ensures forall j :: 0 <= j < FirstTrue(hits) ==> !hits[j]
    ensures FirstTrue(hits) < |hits| ==> hits[FirstTrue(hits)]
  {
    if hits != [] && !hits[0] {
      FirstTrueFacts(hits[1..]);
      forall j | 0 <= j < FirstTrue(hits)
        ensures !hits[j]
      {
        if j > 0 {
          assert hits[j] == hits[1..][j - 1];
        }
      }
    }
  }

  /** A failed run at or before the first success lies strictly before it. */
  lemma PassFailure(hits: seq<bool>, i: nat)
    requires i < |hits| && !hits[i] && FirstTrue(hits) >= i
    ensures FirstTrue(hits) > i
  {
    FirstTrueFacts(hits);
  }

  /** Appending run `i` to the runs before it gives the runs up to and including it. */
  lemma TakeOneMore(planned: seq<Action>, i: nat)
    requires i < |planned|
    ensures planned[..i] + [planned[i]] == planned[..i + 1]
  {
  }

  /**
   * Runs `planned` in order, where `hits[i]` says whether run `i` succeeds,
   * and stops right after the first success.
   */
  function FirstSuccess(planned: seq<Action>, hits: seq<bool>): Outcome
    requires |planned| == |hits|
  {
    var i := FirstTrue(hits);
    if i < |hits| then Outcome(true, planned[..i + 1]) else Outcome(false, planned)
  }

  /**
   * The attempts succeed iff some planned run succeeds; they then end with
   * the first successful run, every earlier run having failed, and nothing
   * after it is run; otherwise every planned run was made.
   */
  lemma FirstSuccessFacts(planned: seq<Action>, hits: seq<bool>)
    requires |planned| == |hits|
    ensures var r := FirstSuccess(planned, hits);
      && (r.ok <==> exists i :: 0 <= i < |hits| && hits[i])
      && (r.ok ==> exists i :: 0 <= i < |hits| && hits[i] && r.actions == planned[..i + 1]
                              && forall j :: 0 <= j < i ==> !hits[j])
      && (!r.ok ==> r.actions == planned)
  {
    var i := FirstTrue(hits);
    FirstTrueFacts(hits);
    if exists k :: 0 <= k < |hits| && hits[k] {
      assert i < |hits|;
    }
  }

  /**
   * The runs made are a prefix of the plan; on success the last of them
   * succeeded and every earlier one failed; on failure every planned run
   * was made and none succeeded.
   */
  lemma FirstSuccessStops(planned: seq<Action>, hits: seq<bool>)
    requires |planned| == |hits|
    ensures var r := FirstSuccess(planned, hits);
      && |r.actions| <= |planned| && r.actions == planned[..|r.actions|]
      && (r.ok ==> r.actions != [] && hits[|r.actions| - 1])
      && (forall k :: 0 <= k < |r.actions| - 1 ==> !hits[k])
      && (!r.ok ==> |r.actions| == |hits| && forall k :: 0 <= k < |hits| ==> !hits[k])
  {
    FirstTrueFacts(hits);
  }

  /** Run `i` is where the attempts stop exactly when it is the first success. */
  lemma StopsAt(planned: seq<Action>, hits: seq<bool>, i: nat)
    requires |planned| == |hits| && i < |hits|
    ensures FirstSuccess(planned, hits) == Outcome(true, planned[..i + 1])
        <==> hits[i] && forall j :: 0 <= j < i ==> !hits[j]
  {
    var f := FirstTrue(hits);
    FirstTrueFacts(hits);
    if FirstSuccess(planned, hits) == Outcome(true, planned[..i + 1]) {
      assert |planned[..f + 1]| == |planned[..i + 1]|;
    }
  }

  /** A successful run at or before the first success is where the attempts stop. */
  lemma StopAtSuccess(planned: seq<Action>, hits: seq<bool>, i: nat)
    requires |planned| == |hits| && i < |hits| && hits[i] && FirstTrue(hits) >= i
    ensures FirstSuccess(planned, hits) == Outcome(true, planned[..i + 1])
  {
    FirstTrueFacts(hits);
  }

  /** Success of each planned run judged by a zero exit status. */
  function ZeroExit(planned: seq<Action>, exitCode: Action -> int): (hits: seq<bool>)
    ensures |hits| == |planned|
    ensures forall i :: 0 <= i < |planned| ==> (hits[i] <==> exitCode(planned[i]) == 0)
  {
    seq(|planned|, i requires 0 <= i < |planned| => exitCode(planned[i]) == 0)
  }
}
