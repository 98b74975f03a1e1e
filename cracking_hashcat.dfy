/**
 * hashcat: choosing the hash mode for a file, reading back what `--show`
 * reports, and the wordlist loop judged by that report.
 */
module Hashcat {
  import opened Wrappers
  import opened Strings
  import opened Numerals
  import opened Paths
  import opened Attempts
  import opened Models
  import opened FileId
  import opened Archives

  /**
   * What mode resolution decides: a hashcat mode number, the known-plaintext
   * attack on a ZipCrypto archive (the `"USE_PKCRACK"` sentinel), or nothing.
   */
  datatype Strategy = Mode(n: int) | UsePkcrack | Unresolved

  /** Hash-algorithm labels (lower case) and their hashcat modes. */
  const KnownHashMap: map<string, int> := map[
    "ntlm" := 1000,
    "7-zip" := 11600,
    "winzip" := 13600,
    "pkzip (compressed)" := 17200,
    "pkzip (uncompressed)" := 17210,
    "pkzip (compressed multi-file)" := 17220,
    "pkzip (mixed multi-file)" := 17225,
    "pkzip (multi-file checksum-only)" := 17230,
    "pkzip master key" := 20500,
    "pkzip master key (6 bytes)" := 20510,
    "sha256 (sha256($pass).$salt))" := 207010,
    "netntlmv1" := 5500,
    "netntlmv2" := 5600,
    "sha512crypt" := 1800,
    "sha256crypt" := 7400,
    "md5crypt" := 500,
    "pdf14" := 10500,
    "pdf17" := 10700,
    "pdf20" := 10710,
    "office2007" := 9400,
    "office2010" := 9500,
    "office2013" := 9600,
    "md5" := 0,
    "sha1" := 100]

  /** Encryption labels (lower case) and what they lead to. */
  const KnownEncryptionMap: map<string, Strategy> := map[
    "zipcrypto" := UsePkcrack,
    "aes-zip" := Mode(13600),
    "aes" := Mode(13600),
    "aes-7zip" := Mode(11600),
    "7zip-aes" := Mode(11600),
    "pkzip (compressed)" := Mode(17200),
    "pkzip (uncompressed)" := Mode(17210),
    "pkzip (compressed multi-file)" := Mode(17220),
    "pkzip (mixed multi-file)" := Mode(17225),
    "pkzip (multi-file checksum-only)" := Mode(17230),
    "pkzip master key" := Mode(20500),
    "pkzip master key (6 bytes)" := Mode(20510),
    "sha256 (sha256($pass).$salt))" := Mode(207010),
    "office2007" := Mode(9400),
    "office2010" := Mode(9500),
    "office2013" := Mode(9600),
    "pdf14" := Mode(10500),
    "pdf17" := Mode(10700),
    "pdf20" := Mode(10710)]

  /** Python truthiness of an optional string: present and not empty. */
  predicate Truthy(s: Option<string>)
  {
    s.Some? && s.value != []
  }

  /** The hash hint names a known algorithm. */
  predicate HashHintKnown(ev: EvidenceFile)
  {
    Truthy(ev.knownHashAlgo) && Lower(ev.knownHashAlgo.value) in KnownHashMap
  }

  /** The encryption hint names a known scheme. */
  predicate EncryptionHintKnown(ev: EvidenceFile)
  {
    Truthy(ev.knownEncryptionAlgo) && Lower(ev.knownEncryptionAlgo.value) in KnownEncryptionMap
  }

  // ---------------------------------------------------------------------
  // The filename tag `m<digits>`

  predicate IsTagDelimiter(c: char)
  {
    c == '_' || c == '-' || c == '.'
  }

  /** Length of the run of ASCII digits starting at `i`. */
  function DigitRun(s: string, i: nat): (n: nat)
    requires i <= |s|
    ensures i + n <= |s|
    decreases |s| - i
  {
    if i == |s| || !IsDigit(s[i]) then 0 else 1 + DigitRun(s, i + 1)
  }

  lemma {:induction false} DigitRunFacts(s: string, i: nat)
    requires i <= |s|
    ensures var n := DigitRun(s, i);
      && (forall k :: i <= k < i + n ==> IsDigit(s[k]))
      && (i + n < |s| ==> !IsDigit(s[i + n]))
    decreases |s| - i
  {
    if i < |s| && IsDigit(s[i]) {
      DigitRunFacts(s, i + 1);
    }
  }

  /**
   * The tag pattern `(?:^|[_\-.])m(\d+)(?:[_\-.]|$)` matches with its `m`
   * at index `i`: the `m` starts the name or follows a delimiter, and the
   * whole digit run after it is followed by a delimiter, the end, or a
   * final newline (where `$` also matches).
   */
  predicate TagAt(s: string, i: nat)
  {
    && i < |s|
    && s[i] == 'm'
    && (i == 0 || IsTagDelimiter(s[i - 1]))
    && var n := DigitRun(s, i + 1);
       && n > 0
       && var e := i + 1 + n;
          e == |s| || IsTagDelimiter(s[e]) || (e == |s| - 1 && s[e] == '\n')
  }

  /** The digits of the tag at `i`. */
  function TagDigits(s: string, i: nat): (d: string)
    requires TagAt(s, i)
    ensures |d| > 0 && forall k :: 0 <= k < |d| ==> IsDigit(d[k])
  {
    DigitRunFacts(s, i + 1);
    s[i + 1..i + 1 + DigitRun(s, i + 1)]
  }

  /** The leftmost tag position at or after `from`, as `re.search` finds it. */
  function FindTag(s: string, from: nat): (r: Option<nat>)
    requires from <= |s|
    ensures r.Some? ==> TagAt(s, r.value)
    decreases |s| - from
  {
    if from == |s| then None
    else if TagAt(s, from) then Some(from)
    else FindTag(s, from + 1)
  }

  lemma {:induction false} FindTagFacts(s: string, from: nat)
    requires from <= |s|
    ensures var r := FindTag(s, from);
      && (r.Some? ==> from <= r.value && TagAt(s, r.value)
                      && forall j :: from <= j < r.value ==> !TagAt(s, j))
      && (r.None? ==> forall j :: from <= j < |s| ==> !TagAt(s, j))
    decreases |s| - from
  {
    if from < |s| && !TagAt(s, from) {
      FindTagFacts(s, from + 1);
    }
  }

  /** The mode a file name announces, `int` of the first tag's digits. */
  function FilenameTag(fname: string): Option<int>
  {
    match FindTag(fname, 0)
    case Some(i) => Some(DigitsValue(TagDigits(fname, i)))
    case None => None
  }

  /**
   * A name announces mode `n` exactly when its leftmost tag reads `n`; a
   * name with no tag anywhere announces nothing. Within `int`'s digit limit
   * the value is what `int` gives; beyond it `int` raises, which the model
   * does not follow.
   */
  lemma FilenameTagFacts(fname: string)
    ensures FilenameTag(fname).Some? <==> exists i :: 0 <= i < |fname| && TagAt(fname, i)
    ensures FilenameTag(fname).Some? ==> exists i ::
      && 0 <= i < |fname| && TagAt(fname, i)
      && (forall j :: 0 <= j < i ==> !TagAt(fname, j))
      && FilenameTag(fname) == Some(DigitsValue(TagDigits(fname, i)))
      && (|TagDigits(fname, i)| <= MaxStrDigits ==> FilenameTag(fname) == ParseInt(TagDigits(fname, i)))
  {
    FindTagFacts(fname, 0);
    var r := FindTag(fname, 0);
    if r.Some? {
      var d := TagDigits(fname, r.value);
      assert WellFormedDigits(d);
      DigitCountOfDigits(d);
    }
  }

  // ---------------------------------------------------------------------
  // Mode resolution

  /**
   * The interactive question: no terminal, a blank answer or one `int`
   * refuses leave the mode unresolved.
   */
  function Ask(answer: Option<string>): Strategy
  {
    match answer
    case None => Unresolved
    case Some(line) =>
      var s := Strip(line);
      if s == [] then Unresolved
      else match ParseInt(s)
        case None => Unresolved
        case Some(n) => Mode(n)
  }

  /** The last two steps: the filename tag, then the question. */
  function TagOrAsk(ev: EvidenceFile, answer: Option<string>): Strategy
  {
    match FilenameTag(Lower(ev.Name()))
    case Some(n) => Mode(n)
    case None => Ask(answer)
  }

  /**
   * `resolve_hashcat_mode`. `zipInfo` is the container hint; `answer` is
   * `None` when standard input is not a terminal, and otherwise the line
   * typed at the prompt.
   */
  function ResolveMode(ev: EvidenceFile, zipInfo: Option<string>, answer: Option<string>): Strategy
  {
    if HashHintKnown(ev) then Mode(KnownHashMap[Lower(ev.knownHashAlgo.value)])
    else if EncryptionHintKnown(ev) then KnownEncryptionMap[Lower(ev.knownEncryptionAlgo.value)]
    else if IsPdf(ev.Ext()) then Mode(10700)
    else if ClassifyOffice(ev.Ext()) == Some(Office2013) then Mode(9600)
    else if ClassifyOffice(ev.Ext()) == Some(Office2007) then Mode(9400)
    else if ev.Ext() == ".7z" then Mode(11600)
    else if ev.Ext() == ".zip" && Truthy(zipInfo) then
      if zipInfo.value == "aes" then Mode(13600)
      else if zipInfo.value == "zipcrypto" then UsePkcrack
      else Mode(13600)
    else TagOrAsk(ev, answer)
  }

  /** A known hash hint decides the mode, whatever the extension, container hint or answer. */
  lemma HashHintWins(ev: EvidenceFile, zipInfo: Option<string>, answer: Option<string>)
    requires HashHintKnown(ev)
    ensures ResolveMode(ev, zipInfo, answer) == Mode(KnownHashMap[Lower(ev.knownHashAlgo.value)])
    ensures forall z, a :: ResolveMode(ev, z, a) == ResolveMode(ev, zipInfo, answer)
  {
  }

  /** The label "md5", in any case, selects mode 0: a zero mode is returned, not skipped. */
  lemma Md5HintIsModeZero(ev: EvidenceFile, zipInfo: Option<string>, answer: Option<string>)
    requires ev.knownHashAlgo.Some? && Lower(ev.knownHashAlgo.value) == "md5"
    ensures ResolveMode(ev, zipInfo, answer) == Mode(0)
  {
  }

  /**
   * An unknown, empty or missing hash hint does not stop resolution: the
   * result is what it would be without any hash hint.
   */
  lemma UnknownHashHintFallsThrough(ev: EvidenceFile, zipInfo: Option<string>, answer: Option<string>)
    requires !HashHintKnown(ev)
    ensures ResolveMode(ev, zipInfo, answer) == ResolveMode(ev.(knownHashAlgo := None), zipInfo, answer)
  {
  }

  /**
   * Without a known hash hint, a known encryption hint decides, whatever the
   * extension, the container hint, the filename tag or the answer.
   */
  lemma EncryptionHintWins(ev: EvidenceFile, zipInfo: Option<string>, answer: Option<string>)
    requires !HashHintKnown(ev) && EncryptionHintKnown(ev)
    ensures ResolveMode(ev, zipInfo, answer) == KnownEncryptionMap[Lower(ev.knownEncryptionAlgo.value)]
    ensures forall z, a :: ResolveMode(ev, z, a) == ResolveMode(ev, zipInfo, answer)
  {
  }

  /** Without a known hash hint, "zipcrypto" as encryption hint, in any case, means known plaintext. */
  lemma ZipCryptoHintMeansKnownPlaintext(ev: EvidenceFile, zipInfo: Option<string>, answer: Option<string>)
    requires !HashHintKnown(ev)
    requires ev.knownEncryptionAlgo.Some? && Lower(ev.knownEncryptionAlgo.value) == "zipcrypto"
    ensures ResolveMode(ev, zipInfo, answer) == UsePkcrack
  {
  }

  /**
   * Without a known hint the extension decides, in this order: PDF, Office
   * 2013 formats, older Office formats, 7-Zip.
   */
  lemma ExtensionSteps(ev: EvidenceFile, zipInfo: Option<string>, answer: Option<string>)
    requires !HashHintKnown(ev) && !EncryptionHintKnown(ev)
    ensures ev.Ext() == ".pdf" ==> ResolveMode(ev, zipInfo, answer) == Mode(10700)
    ensures ev.Ext() in {".docx", ".xlsx", ".pptx"} ==> ResolveMode(ev, zipInfo, answer) == Mode(9600)
    ensures ev.Ext() in {".doc", ".xls", ".ppt"} ==> ResolveMode(ev, zipInfo, answer) == Mode(9400)
    ensures ev.Ext() == ".7z" ==> ResolveMode(ev, zipInfo, answer) == Mode(11600)
  {
  }

  /**
   * For a `.zip` without a known hint, a non-empty container hint decides:
   * "zipcrypto" means known plaintext and anything else mode 13600; a
   * missing or empty hint skips to the filename tag and the question.
   */
  lemma ZipStep(ev: EvidenceFile, zipInfo: Option<string>, answer: Option<string>)
    requires !HashHintKnown(ev) && !EncryptionHintKnown(ev) && ev.Ext() == ".zip"
    ensures Truthy(zipInfo) && zipInfo.value == "zipcrypto" ==> ResolveMode(ev, zipInfo, answer) == UsePkcrack
    ensures Truthy(zipInfo) && zipInfo.value != "zipcrypto" ==> ResolveMode(ev, zipInfo, answer) == Mode(13600)
    ensures !Truthy(zipInfo) ==> ResolveMode(ev, zipInfo, answer) == TagOrAsk(ev, answer)
  {
  }

  /**
   * The filename tag and the question are consulted only when no hint,
   * document extension or archive step applies; then the tag wins, and
   * without one the answer decides.
   */
  lemma LateSteps(ev: EvidenceFile, zipInfo: Option<string>, answer: Option<string>)
    ensures ResolveMode(ev, zipInfo, answer) == TagOrAsk(ev, answer)
        <== !HashHintKnown(ev) && !EncryptionHintKnown(ev)
            && ev.Ext() !in PdfExt + OfficeExt + {".7z"}
            && !(ev.Ext() == ".zip" && Truthy(zipInfo))
    ensures FilenameTag(Lower(ev.Name())).Some? ==> TagOrAsk(ev, answer) == Mode(FilenameTag(Lower(ev.Name())).value)
    ensures FilenameTag(Lower(ev.Name())).None? ==> TagOrAsk(ev, answer) == Ask(answer)
  {
  }

  /**
   * Without a tag the answer decides: no terminal, a blank answer or one
   * that is not an integer leave the mode unresolved; an integer is the mode.
   */
  lemma AskFacts(answer: Option<string>)
    ensures Ask(answer) == Unresolved <==>
      answer.None? || Strip(answer.value) == [] || ParseInt(Strip(answer.value)).None?
    ensures Ask(answer) != UsePkcrack
    ensures forall n: int :: Ask(answer) == Mode(n) <==> answer.Some? && ParseInt(Strip(answer.value)) == Some(n)
  {
    if answer.Some? && ParseInt(Strip(answer.value)).Some? {
      ParseIntShape(Strip(answer.value));
    }
  }

  /**
   * Typing a number at the prompt, with surrounding blanks, selects that
   * number, unless it is too long for `int`.
   */
  lemma AskNumber(n: nat, pad: string)
    requires forall k :: 0 <= k < |pad| ==> IsSpace(pad[k])
    ensures Ask(Some(pad + DecimalString(n) + pad)) ==
      (if |DecimalString(n)| <= MaxStrDigits then Mode(n) else Unresolved)
  {
    var d := DecimalString(n);
    StripPadded(pad, d, pad);
    ParseIntRoundTrip(n);
  }

  /** Among the encryption labels, only "zipcrypto" leads to the known-plaintext attack. */
  lemma OnlyZipCryptoLabelMeansKnownPlaintext(key: string)
    requires key in KnownEncryptionMap
    ensures KnownEncryptionMap[key] == UsePkcrack <==> key == "zipcrypto"
  {
  }

  /**
   * The known-plaintext attack is chosen only through the "zipcrypto"
   * encryption hint, or through the "zipcrypto" container hint of a `.zip`.
   */
  lemma KnownPlaintextOnlyForZipCrypto(ev: EvidenceFile, zipInfo: Option<string>, answer: Option<string>)
    ensures ResolveMode(ev, zipInfo, answer) == UsePkcrack <==>
      && !HashHintKnown(ev)
      && ((EncryptionHintKnown(ev) && Lower(ev.knownEncryptionAlgo.value) == "zipcrypto")
          || (!EncryptionHintKnown(ev) && ev.Ext() == ".zip" && zipInfo == Some("zipcrypto")))
  {
    if HashHintKnown(ev) {
    } else if EncryptionHintKnown(ev) {
      OnlyZipCryptoLabelMeansKnownPlaintext(Lower(ev.knownEncryptionAlgo.value));
    } else {
      AskFacts(answer);
      LateSteps(ev, zipInfo, answer);
      if ev.Ext() == ".zip" {
        ZipStep(ev, zipInfo, answer);
      } else if ev.Ext() in PdfExt + OfficeExt + {".7z"} {
        ExtensionSteps(ev, zipInfo, answer);
      }
    }
  }

  /**
   * For a `.zip` whose container hint comes from the encryption heuristic,
   * the zip step never picks mode 13600: it picks known plaintext for an
   * encrypted archive and is skipped otherwise.
   */
  lemma DetectedZipNeverAes(ev: EvidenceFile, listing: ZipListing, answer: Option<string>)
    requires !HashHintKnown(ev) && !EncryptionHintKnown(ev) && ev.Ext() == ".zip"
    ensures var r := ResolveMode(ev, ZipHint(listing), answer);
      && (ZipHint(listing).Some? ==> r == UsePkcrack)
      && (ZipHint(listing).None? ==> r == TagOrAsk(ev, answer))
  {
    ZipHintFacts(listing);
  }

  // ---------------------------------------------------------------------
  // The `--show` report

  /** The line boundaries of Python's `str.splitlines`. */
  predicate IsLineBreak(c: char)
  {
    c == '\n' || c == '\r' || c == '\U{0B}' || c == '\U{0C}' || c == '\U{1C}' || c == '\U{1D}' ||
    c == '\U{1E}' || c == '\U{85}' || c == '\U{2028}' || c == '\U{2029}'
  }

  /** Index of the first line boundary in `s`, or `|s|`. */
  function BreakIndex(s: string): (k: nat)
    ensures k <= |s|
  {
    if s == [] || IsLineBreak(s[0]) then 0 else 1 + BreakIndex(s[1..])
  }

  lemma {:induction false} BreakIndexFacts(s: string)
    ensures var k := BreakIndex(s);
      && (forall j :: 0 <= j < k ==> !IsLineBreak(s[j]))
      && (k < |s| ==> IsLineBreak(s[k]))
  {
    if s != [] && !IsLineBreak(s[0]) {
      BreakIndexFacts(s[1..]);
      assert forall j :: 1 <= j < BreakIndex(s) ==> s[j] == s[1..][j - 1];
    }
  }

  /** `str.splitlines()`: `\r\n` is one boundary, and a final boundary ends no extra line. */
  function SplitLines(s: string): seq<string>
    decreases |s|
  {
    if s == [] then []
    else
      var k := BreakIndex(s);
      if k == |s| then [s]
      else
        var width := if s[k] == '\r' && k + 1 < |s| && s[k + 1] == '\n' then 2 else 1;
        [s[..k]] + SplitLines(s[k + width..])
  }

  /** A text without a line boundary is one line; the empty text has none. */
  lemma SplitLinesSingle(s: string)
    requires forall j :: 0 <= j < |s| ==> !IsLineBreak(s[j])
    ensures SplitLines(s) == (if s == [] then [] else [s])
  {
    BreakIndexFacts(s);
  }

  /** No line `splitlines` returns holds a line boundary. */
  lemma {:induction false} SplitLinesHaveNoBreaks(s: string)
    ensures forall i, j :: 0 <= i < |SplitLines(s)| && 0 <= j < |SplitLines(s)[i]| ==>
      !IsLineBreak(SplitLines(s)[i][j])
    decreases |s|
  {
    if s != [] {
      var k := BreakIndex(s);
      BreakIndexFacts(s);
      if k < |s| {
        var width := if s[k] == '\r' && k + 1 < |s| && s[k + 1] == '\n' then 2 else 1;
        SplitLinesHaveNoBreaks(s[k + width..]);
        var rest := SplitLines(s[k + width..]);
        var lines := SplitLines(s);
        assert lines == [s[..k]] + rest;
        forall i, j | 0 <= i < |lines| && 0 <= j < |lines[i]|
          ensures !IsLineBreak(lines[i][j])
        {
          if i == 0 {
            assert lines[0][j] == s[j];
          } else {
            assert lines[i] == rest[i - 1];
          }
        }
      }
    }
  }

  /** A lower-cased line that opens with one of hashcat's banner words. */
  predicate NoisePrefix(low: string)
  {
    || StartsWith(low, "hashcat")
    || StartsWith(low, "usage:")
    || StartsWith(low, "session")
    || StartsWith(low, "started")
    || StartsWith(low, "warning:")
    || StartsWith(low, "error:")
  }

  /**
   * A stripped line that is kept as a result: not blank, not a hash-modes
   * header, not a banner line, and with a `:` that is not its last character.
   */
  predicate Keeps(s: string)
  {
    && s != []
    && var low := Lower(s);
       && !(Contains(low, "the following") && Contains(low, "hash-modes"))
       && !Contains(low, "hash-modes match the structure")
       && !NoisePrefix(low)
       && Contains(s, ":")
       && !EndsWith(s, ":")
  }

  /** What one input line contributes to the report. */
  function Kept(line: string): seq<string>
  {
    var s := Strip(line);
    if Keeps(s) then [s] else []
  }

  /** The kept lines, in order. */
  function Filtered(lines: seq<string>): seq<string>
  {
    if lines == [] then [] else Filtered(lines[..|lines| - 1]) + Kept(lines[|lines| - 1])
  }

  /** `_filter_show_lines`: keeps the stripped result lines of a `--show` report, in order. */
  method FilterShowLines(showText: string) returns (lines: seq<string>)
    ensures lines == Filtered(SplitLines(showText))
  {
    var all := SplitLines(showText);
    lines := [];
    for i := 0 to |all|
      invariant lines == Filtered(all[..i])
    {
      assert all[..i + 1][..i] == all[..i];
      var s := Strip(all[i]);
      if s == [] {
        continue;
      }
      var low := Lower(s);
      if Contains(low, "the following") && Contains(low, "hash-modes") {
        continue;
      }
      if Contains(low, "hash-modes match the structure") {
        continue;
      }
      if NoisePrefix(low) {
        continue;
      }
      if Contains(s, ":") && !EndsWith(s, ":") {
        lines := lines + [s];
      }
    }
    assert all[..|all|] == all;
  }

  /** Filtering distributes over concatenation, so the report keeps the input order. */
  lemma {:induction false} FilteredAppend(a: seq<string>, b: seq<string>)
    ensures Filtered(a + b) == Filtered(a) + Filtered(b)
    decreases |b|
  {
    if b != [] {
      var b' := b[..|b| - 1];
      assert (a + b)[..|a + b| - 1] == a + b';
      FilteredAppend(a, b');
    } else {
      assert a + b == a;
    }
  }

  /** Every reported line is a line `Keeps` accepts and the stripped form of some input line. */
  lemma {:induction false} FilteredSound(lines: seq<string>)
    ensures forall k :: 0 <= k < |Filtered(lines)| ==>
      Keeps(Filtered(lines)[k]) && exists j :: 0 <= j < |lines| && Filtered(lines)[k] == Strip(lines[j])
  {
    if lines != [] {
      var init := lines[..|lines| - 1];
      var last := lines[|lines| - 1];
      FilteredSound(init);
      var f := Filtered(lines);
      assert f == Filtered(init) + Kept(last);
      forall k | 0 <= k < |f|
        ensures Keeps(f[k]) && exists j :: 0 <= j < |lines| && f[k] == Strip(lines[j])
      {
        if k < |Filtered(init)| {
          assert f[k] == Filtered(init)[k];
          var j :| 0 <= j < |init| && Filtered(init)[k] == Strip(init[j]);
          assert init[j] == lines[j];
        } else {
          assert f[k] == Strip(last);
        }
      }
    }
  }

  /** What input line `j` contributes appears in the report. */
  lemma KeptIsReported(lines: seq<string>, j: nat)
    requires j < |lines|
    ensures forall x :: x in Kept(lines[j]) ==> x in Filtered(lines)
  {
    var before, after := lines[..j], lines[j + 1..];
    assert lines == before + [lines[j]] + after;
    FilteredAppend(before + [lines[j]], after);
    FilteredAppend(before, [lines[j]]);
    assert Filtered([lines[j]]) == Kept(lines[j]) by {
      assert [lines[j]][..0] == [];
    }
  }

  /** Every input line whose stripped form `Keeps` accepts is reported. */
  lemma FilteredComplete(lines: seq<string>)
    ensures forall j :: 0 <= j < |lines| && Keeps(Strip(lines[j])) ==> Strip(lines[j]) in Filtered(lines)
  {
    forall j | 0 <= j < |lines| && Keeps(Strip(lines[j])) ensures Strip(lines[j]) in Filtered(lines) {
      KeptIsReported(lines, j);
      assert Strip(lines[j]) in Kept(lines[j]);
    }
  }

  /** A line with a `:` that does not end in `:` has a `:` before its last character. */
  lemma ColonBeforeEnd(s: string)
    requires Contains(s, ":") && !EndsWith(s, ":")
    ensures |s| >= 2 && ':' in s[..|s| - 1] && s[|s| - 1] != ':'
  {
    var k :| 0 <= k <= |s| && OccursAt(s, ":", k);
    assert s[k] == s[k..k + 1][0];
    assert s[|s| - 1..] != ":";
    assert s[|s| - 1..] == [s[|s| - 1]];
    assert s[..|s| - 1][k] == ':';
  }

  /**
   * A reported line is never blank and has a `:` before its last
   * character, so it holds a hash and a non-empty recovered password.
   */
  lemma KeepsFacts(s: string)
    requires Keeps(s)
    ensures |s| >= 2 && ':' in s[..|s| - 1] && s[|s| - 1] != ':'
  {
    ColonBeforeEnd(s);
  }

  // ---------------------------------------------------------------------
  // The wordlist loop

  /** How one hashcat attempt ended: an exception, or with its exit code and `--show` output. */
  datatype HashcatRun = Raised | Finished(exitCode: int, showStdout: string)

  /** The hashcat potfile dedicated to one output path. */
  function PotFile(outputPath: string): string
  {
    outputPath + ".hashcat.pot"
  }

  /** The result lines an attempt reports; an exception reports none. */
  function ShowLines(r: HashcatRun): seq<string>
  {
    match r
    case Raised => []
    case Finished(_, out) => Filtered(SplitLines(out))
  }

  /** `"\n".join(lines)`. */
  function JoinLines(lines: seq<string>): string
  {
    if lines == [] then ""
    else if |lines| == 1 then lines[0]
    else JoinLines(lines[..|lines| - 1]) + "\n" + lines[|lines| - 1]
  }

  /** The text written to the output file: one result line per line. */
  function ResultText(lines: seq<string>): string
  {
    JoinLines(lines) + "\n"
  }

  /** The hashcat attempts in wordlist order, were none of them to succeed. */
  function Planned(hashfile: string, mode: int, wordlists: seq<string>, outputPath: string): (p: seq<Action>)
    ensures |p| == |wordlists|
  {
    seq(|wordlists|, i requires 0 <= i < |wordlists| =>
      Hashcat(hashfile, mode, wordlists[i], PotFile(outputPath), outputPath))
  }

  /** An attempt succeeds when its `--show` report has a result line. */
  function Cracked(planned: seq<Action>, run: Action -> HashcatRun): (hits: seq<bool>)
    ensures |hits| == |planned|
  {
    seq(|planned|, i requires 0 <= i < |planned| => ShowLines(run(planned[i])) != [])
  }

  /** Attempt `i` counts as cracked exactly when its report has a result line. */
  lemma CrackedAt(planned: seq<Action>, run: Action -> HashcatRun, i: nat)
    requires i < |planned|
    ensures Cracked(planned, run)[i] <==> ShowLines(run(planned[i])) != []
  {
  }

  /** What `crack_hashfile` does, given how each possible attempt ends. */
  function CrackSpec(hashfile: string, mode: int, wordlists: seq<string>, outputPath: string,
                     run: Action -> HashcatRun): Outcome
  {
    var planned := Planned(hashfile, mode, wordlists, outputPath);
    FirstSuccess(planned, Cracked(planned, run))
  }

  /**
   * `_run_show` inside the `try` block of one attempt: the filtered
   * `--show` report, and no line when the attempt raised.
   */
  method RunShow(outcome: HashcatRun) returns (lines: seq<string>)
    ensures lines == ShowLines(outcome)
  {
    match outcome {
      case Raised =>
        lines := [];
      case Finished(_, showStdout) =>
        lines := FilterShowLines(showStdout);
    }
  }

  /**
   * `crack_hashfile`: tries the wordlists in order, stops at the first one
   * whose `--show` report has a result line, and then writes those lines to
   * `output_path`.
   */
  method CrackHashfile(hashfile: string, mode: int, wordlists: seq<string>, outputPath: string,
                       run: Action -> HashcatRun)
    returns (ok: bool, actions: seq<Action>, written: Option<Written>)
    ensures Outcome(ok, actions) == CrackSpec(hashfile, mode, wordlists, outputPath, run)
    ensures written.Some? <==> ok
    ensures ok ==> && |actions| > 0 && ShowLines(run(actions[|actions| - 1])) != []
                   && written == Some(Written(outputPath, ResultText(ShowLines(run(actions[|actions| - 1])))))
  {
    var potPath := PotFile(outputPath);
    ghost var planned := Planned(hashfile, mode, wordlists, outputPath);
    ghost var hits := Cracked(planned, run);
    actions := [];
    for i := 0 to |wordlists|
      invariant actions == planned[..i]
      invariant FirstTrue(hits) >= i
    {
      var attempt := Hashcat(hashfile, mode, wordlists[i], potPath, outputPath);
      assert attempt == planned[i];
      TakeOneMore(planned, i);
      actions := actions + [attempt];
      var showLines := RunShow(run(attempt));
      CrackedAt(planned, run, i);
      if showLines != [] {
        StopAtSuccess(planned, hits, i);
        return true, actions, Some(Written(outputPath, ResultText(showLines)));
      }
      PassFailure(hits, i);
    }
    assert planned[..|wordlists|] == planned;
    return false, actions, None;
  }

  /**
   * hashcat succeeds iff some wordlist's `--show` report has a result line;
   * the attempts follow the wordlist order and cover every wordlist on
   * failure (where they stop is `CrackSpecStops`); an empty list runs
   * nothing; every attempt targets the file with the given mode, potfile
   * and output path.
   */
  lemma {:induction false} CrackSpecFacts(hashfile: string, mode: int, wordlists: seq<string>,
                                          outputPath: string, run: Action -> HashcatRun)
    ensures var r := CrackSpec(hashfile, mode, wordlists, outputPath, run);
      && (r.ok <==> exists i :: && 0 <= i < |wordlists|
                                && ShowLines(run(Hashcat(hashfile, mode, wordlists[i], PotFile(outputPath), outputPath))) != [])
      && (wordlists == [] ==> r == Outcome(false, []))
      && (r.ok ==> r.actions != []) && (!r.ok ==> |r.actions| == |wordlists|)
      && |r.actions| <= |wordlists|
      && (forall k :: 0 <= k < |r.actions| ==>
            r.actions[k] == Hashcat(hashfile, mode, wordlists[k], PotFile(outputPath), outputPath))
      && (forall a :: a in r.actions ==> a.Hashcat? && a.target == hashfile && a.mode == mode
                                         && a.potFile == PotFile(outputPath) && a.outFile == outputPath)
  {
    var planned := Planned(hashfile, mode, wordlists, outputPath);
    var hits := Cracked(planned, run);
    FirstSuccessFacts(planned, hits);
    var r := CrackSpec(hashfile, mode, wordlists, outputPath, run);
    assert r.actions == planned[..|r.actions|];
    forall a | a in r.actions
      ensures a.Hashcat? && a.target == hashfile && a.mode == mode
              && a.potFile == PotFile(outputPath) && a.outFile == outputPath
    {
      var k :| 0 <= k < |r.actions| && r.actions[k] == a;
      assert a == planned[k];
    }
    forall i | 0 <= i < |wordlists|
      ensures hits[i] <==> ShowLines(run(Hashcat(hashfile, mode, wordlists[i], PotFile(outputPath), outputPath))) != []
    {
      assert planned[i] == Hashcat(hashfile, mode, wordlists[i], PotFile(outputPath), outputPath);
    }
  }

  /**
   * hashcat stops at the first success: on success the last attempt's report
   * has a result line and every earlier one has none; on failure no report
   * has one.
   */
  lemma CrackSpecStops(hashfile: string, mode: int, wordlists: seq<string>, outputPath: string,
                       run: Action -> HashcatRun)
    ensures var r := CrackSpec(hashfile, mode, wordlists, outputPath, run);
      && (r.ok ==> r.actions != [] && ShowLines(run(r.actions[|r.actions| - 1])) != [])
      && (forall k :: 0 <= k < |r.actions| - 1 ==> ShowLines(run(r.actions[k])) == [])
      && (!r.ok ==> forall k :: 0 <= k < |r.actions| ==> ShowLines(run(r.actions[k])) == [])
  {
    var planned := Planned(hashfile, mode, wordlists, outputPath);
    var hits := Cracked(planned, run);
    FirstSuccessStops(planned, hits);
    var r := CrackSpec(hashfile, mode, wordlists, outputPath, run);
    forall k | 0 <= k < |r.actions|
      ensures hits[k] <==> ShowLines(run(r.actions[k])) != []
    {
      assert r.actions[k] == planned[k];
      CrackedAt(planned, run, k);
    }
  }

  /**
   * The exit code plays no part: two runs whose attempts report the same
   * result lines give the same outcome, and an exception counts as an
   * attempt with no result line.
   */
  lemma ExitCodeIgnored(hashfile: string, mode: int, wordlists: seq<string>, outputPath: string,
                        run1: Action -> HashcatRun, run2: Action -> HashcatRun)
    requires forall a :: ShowLines(run1(a)) == ShowLines(run2(a))
    ensures CrackSpec(hashfile, mode, wordlists, outputPath, run1)
         == CrackSpec(hashfile, mode, wordlists, outputPath, run2)
  {
    var planned := Planned(hashfile, mode, wordlists, outputPath);
    assert Cracked(planned, run1) == Cracked(planned, run2);
  }
}
