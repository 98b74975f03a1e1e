/** zsteg: a single run whose captured output decides success. */
module Zsteg {
  import opened Wrappers
  import opened Strings
  import opened Paths
  import opened Attempts

  /** How the `zsteg -a <image>` run ended: a non-zero exit, or normally with its stdout. */
  datatype ZstegOutcome = CalledProcessError | Completed(stdout: string)

  /** What `ZstegEngine.run` reports, and the file it saves on success. */
  datatype ZstegResult = ZstegResult(ok: bool, saved: Option<Written>)

  /** Where the findings for `filepath` are saved: `<output_dir>/<stem>_zsteg.txt`. */
  function OutputFile(filepath: string, outputDir: string): string
  {
    Join(outputDir, Stem(filepath) + "_zsteg.txt")
  }

  /** `ZstegEngine.run`, given how its one zsteg run ends. */
  function Run(filepath: string, outputDir: string, outcome: ZstegOutcome): ZstegResult
  {
    match outcome
    case CalledProcessError => ZstegResult(false, None)
    case Completed(stdout) =>
      var output := Strip(stdout);
      if Contains(Lower(output), "nothing to extract") || output == [] then ZstegResult(false, None)
      else ZstegResult(true, Some(Written(OutputFile(filepath, outputDir), output)))
  }

  /**
   * zsteg succeeds iff it exits normally with output that is not blank and
   * does not say "nothing to extract" in any letter case; exactly then it
   * saves that output, stripped, to `<output_dir>/<stem>_zsteg.txt`.
   */
  lemma {:induction false} RunFacts(filepath: string, outputDir: string, outcome: ZstegOutcome)
    ensures var r := Run(filepath, outputDir, outcome);
      && (r.ok <==> outcome.Completed? && Strip(outcome.stdout) != []
                    && !Contains(Lower(outcome.stdout), "nothing to extract"))
      && (r.saved.Some? <==> r.ok)
      && (r.ok ==> r.saved.value.path == OutputFile(filepath, outputDir)
                   && r.saved.value.text == Strip(outcome.stdout))
  {
    if outcome.Completed? {
      ContainsAfterStrip(outcome.stdout, "nothing to extract");
    }
  }

  /** The saved text is never blank and carries no surrounding whitespace. */
  lemma SavedIsStripped(filepath: string, outputDir: string, outcome: ZstegOutcome)
    requires Run(filepath, outputDir, outcome).ok
    ensures var t := Run(filepath, outputDir, outcome).saved.value.text;
      t != [] && !IsSpace(t[0]) && !IsSpace(t[|t| - 1])
  {
    var i, j := StripShape(outcome.stdout);
  }

  /** The output file lies directly in `output_dir` and is named `<stem>_zsteg.txt`. */
  lemma OutputFileName(filepath: string, outputDir: string)
    ensures Basename(OutputFile(filepath, outputDir)) == Stem(filepath) + "_zsteg.txt"
  {
    ExtShape(filepath);
    JoinBasename(outputDir, Stem(filepath) + "_zsteg.txt");
  }
}
