/**
 * `ForensiCrackApp`: walks the input directory, identifies each regular
 * file, hands it to the engine its category calls for (with the
 * stegseek-to-zsteg and hashcat-to-John fallbacks) and counts the files
 * processed and the successes.
 */
module App {
  import opened Wrappers
  import opened Strings
  import opened Paths
  import opened Attempts
  import opened Models
  import opened FileId
  import opened Wordlists
  import opened Archives
  import StegEngine = Steg
  import ZstegEngine = Zsteg
  import JohnEngine = John
  import HashcatEngine = Hashcat

  /** The directories one run reads from and writes to. */
  datatype Config = Config(
    inputDir: string,
    wordlistDir: string,
    stegoOutputDir: string,
    crackedOutputDir: string,
    extractedOutputDir: string,
    archiveDir: string)

  /**
   * Everything a run learns from outside: the directory listing, which
   * paths are regular files or exist, the mime guesses, how each external
   * program run ends, what each zip holds, and the line typed at the mode
   * prompt for each path (`None` when standard input is not a terminal).
   */
  datatype World = World(
    listing: seq<string>,
    regularFiles: set<string>,
    existing: set<string>,
    mimeGuess: string -> Option<string>,
    exitCode: Action -> int,
    zsteg: Action -> ZstegEngine.ZstegOutcome,
    zipListing: string -> ZipListing,
    hashcat: Action -> HashcatEngine.HashcatRun,
    knownPlaintext: Action -> bool,
    answer: string -> Option<string>)

  /** The record `execute` builds for a path: the identification copied into a fresh record. */
  function Evidence(path: string, id: Identification): EvidenceFile
  {
    NewEvidence(path).(fileType := id.ext, mimeType := id.mime,
                       isGraphic := id.isGraphic, isArchive := id.isArchive)
  }

  /** The extensions handed to the encrypted-document handler. */
  const DocumentExt: set<string> := {".pdf", ".doc", ".docx", ".xls", ".xlsx", ".ppt", ".pptx"}

  /** The branches of `execute`, in the order they are tested. */
  datatype Branch = Graphic | Archive | EncryptedDocument | HashList | PlainText | Unsupported

  /** The branch `execute` takes for an identified file. */
  function BranchOf(id: Identification): Branch
  {
    if id.isGraphic then Graphic
    else if id.isArchive then Archive
    else if id.ext in DocumentExt then EncryptedDocument
    else if id.ext == ".hash" then HashList
    else if id.isText then PlainText
    else Unsupported
  }

  /** The extension sets `execute` tests, in order, do not overlap. */
  lemma ExtensionSetsDisjoint(ext: string)
    ensures ext in GraphicExt ==> ext !in ArchiveExt && ext !in DocumentExt && ext != ".hash" && ext != ".txt"
    ensures ext in ArchiveExt ==> ext !in DocumentExt && ext != ".hash" && ext != ".txt"
    ensures ext in DocumentExt ==> ext != ".hash" && ext != ".txt"
  {
  }

  /**
   * Each file takes exactly one branch, and which one depends on its
   * lower-cased extension alone: the extension sets tested are disjoint.
   */
  lemma BranchByExtension(path: string, mimeGuess: Option<string>)
    ensures var b := BranchOf(Identify(path, mimeGuess));
      var ext := NewEvidence(path).Ext();
      && (b == Graphic <==> ext in GraphicExt)
      && (b == Archive <==> ext in ArchiveExt)
      && (b == EncryptedDocument <==> ext in DocumentExt)
      && (b == HashList <==> ext == ".hash")
      && (b == PlainText <==> ext == ".txt")
      && (b == Unsupported <==> ext !in GraphicExt + ArchiveExt + DocumentExt + {".hash", ".txt"})
  {
    ExtensionSetsDisjoint(NewEvidence(path).Ext());
  }

  // ---------------------------------------------------------------------
  // What each branch does

  /** Where hashcat and John put what they recover: `CRACKED_OUTPUT_DIR/<name>.pot`. */
  function CrackedPath(cfg: Config, name: string): string
  {
    Join(cfg.crackedOutputDir, name + ".pot")
  }

  /** hashcat with the resolved mode, and John over the same wordlists only when hashcat fails. */
  function CrackChainSpec(cfg: Config, w: World, path: string, name: string, mode: int,
                          wordlists: seq<string>): Outcome
  {
    var out := CrackedPath(cfg, name);
    var h := HashcatEngine.CrackSpec(path, mode, wordlists, out, w.hashcat);
    if h.ok then h
    else
      var j := JohnEngine.CrackSpec(path, wordlists, out, w.exitCode);
      Outcome(j.ok, h.actions + j.actions)
  }

  /** The graphic branch: stegseek then zsteg for JPEG, zsteg alone for PNG and BMP, nothing for GIF. */
  function GraphicSpec(cfg: Config, w: World, path: string, ext: string, wordlists: seq<string>): Outcome
  {
    var zsteg := Action.Zsteg(path);
    var z := ZstegEngine.Run(path, cfg.stegoOutputDir, w.zsteg(zsteg));
    if ext in {".jpg", ".jpeg"} then
      var s := StegEngine.RunSpec(path, wordlists, cfg.stegoOutputDir, w.exitCode);
      if s.ok then s else Outcome(z.ok, s.actions + [zsteg])
    else if ext in {".png", ".bmp"} then Outcome(z.ok, [zsteg])
    else Outcome(false, [])
  }

  /** The container hint: computed for a `.zip` only. */
  function ZipInfo(w: World, ev: EvidenceFile): Option<string>
  {
    if ev.Ext() == ".zip" then ZipHint(w.zipListing(ev.path)) else None
  }

  /** Where the known-plaintext attack writes the decrypted archive. */
  function DecryptedZip(cfg: Config, name: string): string
  {
    Join(cfg.extractedOutputDir, "decrypted_" + name + ".zip")
  }

  /**
   * `_handle_archive`: no run when no mode is found; the known-plaintext
   * attack, followed by extraction when it succeeds; otherwise the
   * hashcat-then-John chain.
   */
  function ArchiveSpec(cfg: Config, w: World, ev: EvidenceFile, wordlists: seq<string>): Outcome
  {
    match HashcatEngine.ResolveMode(ev, ZipInfo(w, ev), w.answer(ev.path))
    case Unresolved => Outcome(false, [])
    case UsePkcrack =>
      var decrypted := DecryptedZip(cfg, ev.Name());
      var attack := KnownPlaintext(ev.path, decrypted);
      if w.knownPlaintext(attack)
      then Outcome(true, [attack, Extract(decrypted, Join(cfg.archiveDir, Stem(decrypted)))])
      else Outcome(false, [attack])
    case Mode(n) => CrackChainSpec(cfg, w, ev.path, ev.Name(), n, wordlists)
  }

  /**
   * `_handle_encrypted_file` and `_handle_hash_file`: the hashcat-then-John
   * chain for a numeric mode, and no run at all otherwise.
   */
  function DirectCrackSpec(cfg: Config, w: World, ev: EvidenceFile, wordlists: seq<string>): Outcome
  {
    match HashcatEngine.ResolveMode(ev, None, w.answer(ev.path))
    case Mode(n) => CrackChainSpec(cfg, w, ev.path, ev.Name(), n, wordlists)
    case _ => Outcome(false, [])
  }

  /** What one directory entry amounts to: skipped, or processed with its success and runs. */
  datatype Step = Skipped | Processed(ok: bool, actions: seq<Action>)

  /** What `execute` does with the regular file `path`, by the branch its identification selects. */
  function DispatchSpec(cfg: Config, w: World, wordlists: seq<string>, path: string): Outcome
  {
    var id := Identify(path, w.mimeGuess(path));
    var ev := Evidence(path, id);
    match BranchOf(id)
    case Graphic => GraphicSpec(cfg, w, path, ev.Ext(), wordlists)
    case Archive => ArchiveSpec(cfg, w, ev, wordlists)
    case EncryptedDocument => DirectCrackSpec(cfg, w, ev, wordlists)
    case HashList => DirectCrackSpec(cfg, w, ev, wordlists)
    case PlainText => Outcome(false, [])
    case Unsupported => Outcome(false, [])
  }

  /** One pass of the `execute` loop for the entry `filename`. */
  function FileSpec(cfg: Config, w: World, wordlists: seq<string>, filename: string): Step
  {
    var path := Join(cfg.inputDir, filename);
    if path !in w.regularFiles then Skipped
    else
      var r := DispatchSpec(cfg, w, wordlists, path);
      Processed(r.ok, r.actions)
  }

  /** The counters' increments and the runs made over a stretch of the listing. */
  datatype Tally = Tally(processed: nat, successes: nat, actions: seq<Action>)

  function Extend(t: Tally, step: Step): Tally
  {
    match step
    case Skipped => t
    case Processed(ok, acts) =>
      Tally(t.processed + 1, t.successes + (if ok then 1 else 0), t.actions + acts)
  }

  /** The effect of the `execute` loop over `names`, entry by entry. */
  function PassSpec(cfg: Config, w: World, wordlists: seq<string>, names: seq<string>): Tally
  {
    if names == [] then Tally(0, 0, [])
    else Extend(PassSpec(cfg, w, wordlists, names[..|names| - 1]),
                FileSpec(cfg, w, wordlists, names[|names| - 1]))
  }

  /** Taking one more entry extends the tally by that entry's step. */
  lemma PassStep(cfg: Config, w: World, wordlists: seq<string>, names: seq<string>, i: nat)
    requires i < |names|
    ensures PassSpec(cfg, w, wordlists, names[..i + 1])
         == Extend(PassSpec(cfg, w, wordlists, names[..i]), FileSpec(cfg, w, wordlists, names[i]))
  {
    assert names[..i + 1][..i] == names[..i];
  }

  /**
   * The archive directory after a sequence of runs: each extraction
   * replaces its directory's contents with the names in the archive.
   */
  function Replay(m: map<string, seq<string>>, actions: seq<Action>,
                  zipListing: string -> ZipListing): map<string, seq<string>>
  {
    if actions == [] then m
    else
      var before := Replay(m, actions[..|actions| - 1], zipListing);
      match actions[|actions| - 1]
      case Extract(zip, outDir) => before[outDir := EntryNames(zipListing(zip))]
      case _ => before
  }

  /** Replaying two stretches of runs is replaying the first, then the second. */
  lemma {:induction false} ReplayAppend(m: map<string, seq<string>>, a: seq<Action>, b: seq<Action>,
                                        zipListing: string -> ZipListing)
    ensures Replay(m, a + b, zipListing) == Replay(Replay(m, a, zipListing), b, zipListing)
    decreases |b|
  {
    if b == [] {
      assert a + b == a;
    } else {
      var b' := b[..|b| - 1];
      assert (a + b)[..|a + b| - 1] == a + b';
      assert (a + b)[|a + b| - 1] == b[|b| - 1];
      ReplayAppend(m, a, b', zipListing);
    }
  }

  /** A directory no run extracts into keeps what it had. */
  lemma {:induction false} ReplayUntouched(m: map<string, seq<string>>, actions: seq<Action>,
                                           zipListing: string -> ZipListing, dir: string)
    requires forall i :: 0 <= i < |actions| ==> !(actions[i].Extract? && actions[i].outDir == dir)
    ensures dir in Replay(m, actions, zipListing) <==> dir in m
    ensures dir in m ==> Replay(m, actions, zipListing)[dir] == m[dir]
  {
    if actions != [] {
      ReplayUntouched(m, actions[..|actions| - 1], zipListing, dir);
    }
  }

  /** No run in the list extracts an archive. */
  predicate NoExtraction(actions: seq<Action>)
  {
    forall i :: 0 <= i < |actions| ==> !actions[i].Extract?
  }

  /** Runs that extract nothing leave the archive directory as it was. */
  lemma {:induction false} ReplayWithoutExtraction(m: map<string, seq<string>>, actions: seq<Action>,
                                                   zipListing: string -> ZipListing)
    requires NoExtraction(actions)
    ensures Replay(m, actions, zipListing) == m
  {
    if actions != [] {
      ReplayWithoutExtraction(m, actions[..|actions| - 1], zipListing);
    }
  }

  /** The known-plaintext attack extracts nothing itself; the extraction after it fills one directory. */
  lemma ReplayAttack(m: map<string, seq<string>>, attack: Action, zip: string, dir: string,
                     zipListing: string -> ZipListing)
    requires !attack.Extract?
    ensures Replay(m, [attack], zipListing) == m
    ensures Replay(m, [attack, Extract(zip, dir)], zipListing) == m[dir := EntryNames(zipListing(zip))]
  {
    assert [attack, Extract(zip, dir)][..1] == [attack];
    assert [attack][..0] == [];
  }

  // ---------------------------------------------------------------------
  // Properties of the branches

  /**
   * The record built for a directory entry carries the entry's own name,
   * the extension `identify` found and no hints, so hashcat and John write
   * to `CRACKED_OUTPUT_DIR/<entry>.pot`.
   */
  lemma EntryEvidence(cfg: Config, filename: string, mimeGuess: Option<string>)
    requires '/' !in filename
    ensures var path := Join(cfg.inputDir, filename);
      var id := Identify(path, mimeGuess);
      var ev := Evidence(path, id);
      && ev.path == path && ev.Name() == filename && ev.Ext() == id.ext
      && ev.knownHashAlgo == None && ev.knownEncryptionAlgo == None
      && CrackedPath(cfg, ev.Name()) == Join(cfg.crackedOutputDir, filename + ".pot")
  {
    JoinBasename(cfg.inputDir, filename);
  }

  /**
   * The order of the chain: hashcat's runs come first; a hashcat success is
   * the chain's outcome; otherwise hashcat has tried every wordlist and
   * John's runs follow.
   */
  lemma CrackChainOrder(cfg: Config, w: World, path: string, name: string, mode: int,
                        wordlists: seq<string>)
    ensures var out := CrackedPath(cfg, name);
      var r := CrackChainSpec(cfg, w, path, name, mode, wordlists);
      var h := HashcatEngine.CrackSpec(path, mode, wordlists, out, w.hashcat);
      var j := JohnEngine.CrackSpec(path, wordlists, out, w.exitCode);
      && |h.actions| <= |r.actions| && r.actions[..|h.actions|] == h.actions
      && (h.ok ==> r == h)
      && (!h.ok ==> |h.actions| == |wordlists| && r.actions == h.actions + j.actions)
  {
    HashcatEngine.CrackSpecFacts(path, mode, wordlists, CrackedPath(cfg, name), w.hashcat);
  }

  /**
   * hashcat then John: the chain succeeds iff either engine does; John runs
   * iff hashcat failed on a non-empty wordlist list; every run targets the
   * file itself with the one output path; nothing is extracted.
   */
  lemma CrackChainFacts(cfg: Config, w: World, path: string, name: string, mode: int,
                        wordlists: seq<string>)
    ensures var out := CrackedPath(cfg, name);
      var r := CrackChainSpec(cfg, w, path, name, mode, wordlists);
      var h := HashcatEngine.CrackSpec(path, mode, wordlists, out, w.hashcat);
      var j := JohnEngine.CrackSpec(path, wordlists, out, w.exitCode);
      && (r.ok <==> h.ok || j.ok)
      && ((exists a :: a in r.actions && a.John?) <==> !h.ok && wordlists != [])
      && (forall a :: a in r.actions ==>
            || (a.Hashcat? && a.target == path && a.mode == mode && a.outFile == out)
            || (a.John? && a.target == path && a.potFile == out))
      && NoExtraction(r.actions)
  {
    var out := CrackedPath(cfg, name);
    var r := CrackChainSpec(cfg, w, path, name, mode, wordlists);
    var h := HashcatEngine.CrackSpec(path, mode, wordlists, out, w.hashcat);
    var j := JohnEngine.CrackSpec(path, wordlists, out, w.exitCode);
    HashcatEngine.CrackSpecFacts(path, mode, wordlists, out, w.hashcat);
    JohnEngine.CrackSpecFacts(path, wordlists, out, w.exitCode);
    if !h.ok && wordlists != [] {
      assert j.actions[0] == r.actions[|h.actions|];
    }
    forall i | 0 <= i < |r.actions| ensures !r.actions[i].Extract? {
      assert r.actions[i] in r.actions;
    }
  }

  /**
   * The graphic branch: for JPEG, stegseek's outcome stands if it
   * succeeded, and otherwise zsteg runs once after all its attempts, so
   * the branch succeeds iff either does; PNG and BMP run zsteg
   * alone; any other graphic runs nothing and fails.
   */
  lemma GraphicFacts(cfg: Config, w: World, path: string, ext: string, wordlists: seq<string>)
    ensures var r := GraphicSpec(cfg, w, path, ext, wordlists);
      var s := StegEngine.RunSpec(path, wordlists, cfg.stegoOutputDir, w.exitCode);
      var z := ZstegEngine.Run(path, cfg.stegoOutputDir, w.zsteg(Action.Zsteg(path)));
      && (ext in {".jpg", ".jpeg"} ==>
            && (r.ok <==> s.ok || z.ok)
            && (s.ok ==> r == s)
            && (!s.ok ==> r.actions == s.actions + [Action.Zsteg(path)])
            && (Action.Zsteg(path) in r.actions <==> !s.ok)
            && |s.actions| <= |r.actions| && r.actions[..|s.actions|] == s.actions)
      && (ext in {".png", ".bmp"} ==> r.ok == z.ok && r.actions == [Action.Zsteg(path)])
      && (ext !in {".jpg", ".jpeg", ".png", ".bmp"} ==> r == Outcome(false, []))
      && NoExtraction(r.actions)
  {
    var r := GraphicSpec(cfg, w, path, ext, wordlists);
    var s := StegEngine.RunSpec(path, wordlists, cfg.stegoOutputDir, w.exitCode);
    StegEngine.RunSpecFacts(path, wordlists, cfg.stegoOutputDir, w.exitCode);
    forall i | 0 <= i < |r.actions| ensures !r.actions[i].Extract? {
      if i < |s.actions| {
        assert s.actions[i] in s.actions;
      }
    }
  }

  /** The decrypted archive's stem, and so its extraction directory's name, is `decrypted_<name>`. */
  lemma DecryptedStem(cfg: Config, ev: EvidenceFile)
    ensures Stem(DecryptedZip(cfg, ev.Name())) == "decrypted_" + ev.Name()
  {
    NameFacts(ev);
    StemOfJoined(cfg.extractedOutputDir, "decrypted_" + ev.Name(), ".zip");
  }

  /**
   * `_handle_archive`: no mode, no run; the known-plaintext attack runs
   * alone, and its success is the branch's, followed by an extraction into
   * `ARCHIVE_DIR/decrypted_<name>` exactly when it succeeds; a numeric mode
   * runs the hashcat-then-John chain.
   */
  lemma ArchiveFacts(cfg: Config, w: World, ev: EvidenceFile, wordlists: seq<string>)
    ensures var r := ArchiveSpec(cfg, w, ev, wordlists);
      var mode := HashcatEngine.ResolveMode(ev, ZipInfo(w, ev), w.answer(ev.path));
      var decrypted := DecryptedZip(cfg, ev.Name());
      var attack := KnownPlaintext(ev.path, decrypted);
      && (mode.Unresolved? ==> r == Outcome(false, []))
      && (mode.UsePkcrack? ==>
            && (r.ok <==> w.knownPlaintext(attack))
            && (r.ok ==> r.actions == [attack, Extract(decrypted, Join(cfg.archiveDir, "decrypted_" + ev.Name()))])
            && (!r.ok ==> r.actions == [attack]))
      && (mode.Mode? ==> r == CrackChainSpec(cfg, w, ev.path, ev.Name(), mode.n, wordlists))
  {
    DecryptedStem(cfg, ev);
  }

  /** Only a successful known-plaintext attack is followed by an extraction: the crack chain extracts nothing. */
  lemma ArchiveExtractsOnlyAfterAttack(cfg: Config, w: World, ev: EvidenceFile, wordlists: seq<string>)
    ensures var r := ArchiveSpec(cfg, w, ev, wordlists);
      var mode := HashcatEngine.ResolveMode(ev, ZipInfo(w, ev), w.answer(ev.path));
      forall i :: 0 <= i < |r.actions| && r.actions[i].Extract? ==> mode.UsePkcrack? && r.ok
  {
    var mode := HashcatEngine.ResolveMode(ev, ZipInfo(w, ev), w.answer(ev.path));
    if mode.Mode? {
      CrackChainFacts(cfg, w, ev.path, ev.Name(), mode.n, wordlists);
    }
  }

  /** The encrypted-document and hash-list handlers run nothing and fail unless the mode is a number. */
  lemma DirectCrackFacts(cfg: Config, w: World, ev: EvidenceFile, wordlists: seq<string>)
    ensures var r := DirectCrackSpec(cfg, w, ev, wordlists);
      var mode := HashcatEngine.ResolveMode(ev, None, w.answer(ev.path));
      && (!mode.Mode? ==> r == Outcome(false, []))
      && (mode.Mode? ==> r == CrackChainSpec(cfg, w, ev.path, ev.Name(), mode.n, wordlists))
      && NoExtraction(r.actions)
  {
    var mode := HashcatEngine.ResolveMode(ev, None, w.answer(ev.path));
    if mode.Mode? {
      CrackChainFacts(cfg, w, ev.path, ev.Name(), mode.n, wordlists);
    }
  }

  /**
   * The modes `execute` can see for an archive: its records carry no hint,
   * so a `.7z` always gets 11600, and a `.zip` goes to the known-plaintext
   * attack exactly when it has an encrypted member; otherwise the zip step
   * is skipped and the filename tag or the prompt decides.
   */
  lemma ArchiveModeOfEntry(w: World, path: string, id: Identification)
    ensures var ev := Evidence(path, id);
      var mode := HashcatEngine.ResolveMode(ev, ZipInfo(w, ev), w.answer(path));
      && (ev.Ext() == ".7z" ==> mode == HashcatEngine.Mode(11600))
      && (ev.Ext() == ".zip" ==>
            && (mode == HashcatEngine.UsePkcrack <==> ZipHint(w.zipListing(path)) == Some("zipcrypto"))
            && (ZipHint(w.zipListing(path)).None? ==> mode == HashcatEngine.TagOrAsk(ev, w.answer(path))))
  {
    var ev := Evidence(path, id);
    HashcatEngine.AskFacts(w.answer(path));
    if ev.Ext() == ".zip" {
      ZipHintFacts(w.zipListing(path));
      HashcatEngine.DetectedZipNeverAes(ev, w.zipListing(path), w.answer(path));
    }
  }

  /**
   * The modes `execute` can see for a document or hash list: never the
   * known-plaintext attack; the extension fixes it for PDF and Office
   * files, and the filename tag or the prompt decides for `.hash`.
   */
  lemma DocumentModeOfEntry(path: string, id: Identification, answer: Option<string>)
    ensures var ev := Evidence(path, id);
      var mode := HashcatEngine.ResolveMode(ev, None, answer);
      && mode != HashcatEngine.UsePkcrack
      && (ev.Ext() == ".pdf" ==> mode == HashcatEngine.Mode(10700))
      && (ev.Ext() in {".docx", ".xlsx", ".pptx"} ==> mode == HashcatEngine.Mode(9600))
      && (ev.Ext() in {".doc", ".xls", ".ppt"} ==> mode == HashcatEngine.Mode(9400))
      && (ev.Ext() == ".hash" ==> mode == HashcatEngine.TagOrAsk(ev, answer))
  {
    HashcatEngine.AskFacts(answer);
  }

  /** The number of entries of `names` that are regular files in the input directory. */
  function RegularCount(cfg: Config, w: World, names: seq<string>): nat
  {
    if names == [] then 0
    else RegularCount(cfg, w, names[..|names| - 1])
         + (if Join(cfg.inputDir, names[|names| - 1]) in w.regularFiles then 1 else 0)
  }

  /** A step that processed its file with success. */
  predicate Succeeded(step: Step)
  {
    step.Processed? && step.ok
  }

  /** The number of entries of `names` whose branch succeeds. */
  function SuccessCount(cfg: Config, w: World, wordlists: seq<string>, names: seq<string>): nat
  {
    if names == [] then 0
    else SuccessCount(cfg, w, wordlists, names[..|names| - 1])
         + (if Succeeded(FileSpec(cfg, w, wordlists, names[|names| - 1])) then 1 else 0)
  }

  /**
   * The counters: every regular entry is processed once and every other
   * entry skipped, the successes are the entries whose branch succeeds, and
   * successes never outnumber processed files.
   */
  lemma {:induction false} PassCounts(cfg: Config, w: World, wordlists: seq<string>, names: seq<string>)
    ensures var t := PassSpec(cfg, w, wordlists, names);
      && t.processed == RegularCount(cfg, w, names)
      && t.successes == SuccessCount(cfg, w, wordlists, names)
      && t.successes <= t.processed <= |names|
      && ((forall j :: 0 <= j < |names| ==> Join(cfg.inputDir, names[j]) in w.regularFiles)
            ==> t.processed == |names|)
      && ((forall j :: 0 <= j < |names| ==> Join(cfg.inputDir, names[j]) !in w.regularFiles)
            ==> t == Tally(0, 0, []))
  {
    if names != [] {
      var init := names[..|names| - 1];
      PassCounts(cfg, w, wordlists, init);
      assert forall j :: 0 <= j < |init| ==> init[j] == names[j];
    }
  }

  // ---------------------------------------------------------------------
  // The application object

  class ForensiCrackApp {
    const config: Config
    const wordlistMgr: WordlistManager
    const archiveEngine: ArchiveEngine
    var processedCount: nat
    var successCount: nat

    /** The engines look where the configuration says, and no file succeeds without being processed. */
    predicate Valid()
      reads this
    {
      && wordlistMgr.Valid()
      && wordlistMgr.wordlistDir == config.wordlistDir
      && archiveEngine.archiveDir == config.archiveDir
      && successCount <= processedCount
    }

    constructor (config: Config)
      ensures this.config == config
      ensures Valid()
      ensures processedCount == 0 && successCount == 0
      ensures fresh(archiveEngine) && archiveEngine.extracted == map[]
    {
      this.config := config;
      wordlistMgr := new WordlistManager(config.wordlistDir);
      archiveEngine := new ArchiveEngine(config.archiveDir);
      processedCount := 0;
      successCount := 0;
    }

    /** hashcat first; John, with the same output path, only if hashcat fails. */
    method CrackWithFallback(path: string, name: string, mode: int, wordlists: seq<string>, w: World)
      returns (ok: bool, actions: seq<Action>)
      ensures Outcome(ok, actions) == CrackChainSpec(config, w, path, name, mode, wordlists)
    {
      var outputPath := Join(config.crackedOutputDir, name + ".pot");
      var written;
      ok, actions, written := HashcatEngine.CrackHashfile(path, mode, wordlists, outputPath, w.hashcat);
      if !ok {
        var johnActions;
        ok, johnActions := JohnEngine.Crack(path, wordlists, outputPath, w.exitCode);
        actions := actions + johnActions;
      }
    }

    /** The graphic branch of `execute`. */
    method HandleGraphic(path: string, ext: string, wordlists: seq<string>, w: World)
      returns (ok: bool, actions: seq<Action>)
      ensures Outcome(ok, actions) == GraphicSpec(config, w, path, ext, wordlists)
    {
      var outputDir := config.stegoOutputDir;
      ok, actions := false, [];
      if ext in {".jpg", ".jpeg"} {
        ok, actions := StegEngine.Run(path, wordlists, outputDir, w.exitCode);
        if !ok {
          var z := ZstegEngine.Run(path, outputDir, w.zsteg(Action.Zsteg(path)));
          ok := z.ok;
          actions := actions + [Action.Zsteg(path)];
        }
      } else if ext in {".png", ".bmp"} {
        var z := ZstegEngine.Run(path, outputDir, w.zsteg(Action.Zsteg(path)));
        ok := z.ok;
        actions := [Action.Zsteg(path)];
      }
    }

    /** `_handle_archive`. */
    method HandleArchive(ev: EvidenceFile, wordlists: seq<string>, w: World)
      returns (ok: bool, actions: seq<Action>)
      requires archiveEngine.archiveDir == config.archiveDir
      modifies archiveEngine
      ensures Outcome(ok, actions) == ArchiveSpec(config, w, ev, wordlists)
      ensures archiveEngine.extracted == Replay(old(archiveEngine.extracted), actions, w.zipListing)
    {
      var zipInfo: Option<string> := None;
      if ev.Ext() == ".zip" {
        zipInfo := archiveEngine.DetectZipEncryption(w.zipListing(ev.path));
      }
      assert zipInfo == ZipInfo(w, ev);
      var mode := HashcatEngine.ResolveMode(ev, zipInfo, w.answer(ev.path));
      if mode.Unresolved? {
        return false, [];
      }
      if mode.UsePkcrack? {
        var decrypted := Join(config.extractedOutputDir, "decrypted_" + ev.Name() + ".zip");
        var attack := KnownPlaintext(ev.path, decrypted);
        ok := w.knownPlaintext(attack);
        actions := [attack];
        if ok {
          var extractedDir := archiveEngine.ExtractToArchiveDir(decrypted, w.zipListing(decrypted));
          actions := actions + [Extract(decrypted, extractedDir)];
        }
        ReplayAttack(old(archiveEngine.extracted), attack, decrypted, archiveEngine.OutDir(decrypted), w.zipListing);
        return;
      }
      ok, actions := CrackWithFallback(ev.path, ev.Name(), mode.n, wordlists, w);
      CrackChainFacts(config, w, ev.path, ev.Name(), mode.n, wordlists);
      ReplayWithoutExtraction(old(archiveEngine.extracted), actions, w.zipListing);
    }

    /** `_handle_encrypted_file`: a numeric mode or nothing. */
    method HandleEncryptedFile(ev: EvidenceFile, wordlists: seq<string>, w: World)
      returns (ok: bool, actions: seq<Action>)
      ensures Outcome(ok, actions) == DirectCrackSpec(config, w, ev, wordlists)
    {
      var mode := HashcatEngine.ResolveMode(ev, None, w.answer(ev.path));
      if !mode.Mode? {
        return false, [];
      }
      ok, actions := CrackWithFallback(ev.path, ev.Name(), mode.n, wordlists, w);
    }

    /** `_handle_hash_file`: the same steps as for an encrypted document. */
    method HandleHashFile(ev: EvidenceFile, wordlists: seq<string>, w: World)
      returns (ok: bool, actions: seq<Action>)
      ensures Outcome(ok, actions) == DirectCrackSpec(config, w, ev, wordlists)
    {
      var mode := HashcatEngine.ResolveMode(ev, None, w.answer(ev.path));
      if !mode.Mode? {
        return false, [];
      }
      ok, actions := CrackWithFallback(ev.path, ev.Name(), mode.n, wordlists, w);
    }

    /** The category dispatch of `execute` for one regular file. */
    method Dispatch(path: string, wordlists: seq<string>, w: World) returns (ok: bool, actions: seq<Action>)
      requires archiveEngine.archiveDir == config.archiveDir
      modifies archiveEngine
      ensures Outcome(ok, actions) == DispatchSpec(config, w, wordlists, path)
      ensures archiveEngine.extracted == Replay(old(archiveEngine.extracted), actions, w.zipListing)
    {
      var id := Identify(path, w.mimeGuess(path));
      var ev := Evidence(path, id);
      assert ev.Ext() == id.ext;
      ok, actions := false, [];
      if id.isGraphic {
        ok, actions := HandleGraphic(path, ev.Ext(), wordlists, w);
        GraphicFacts(config, w, path, ev.Ext(), wordlists);
        ReplayWithoutExtraction(archiveEngine.extracted, actions, w.zipListing);
      } else if id.isArchive {
        ok, actions := HandleArchive(ev, wordlists, w);
      } else if ev.Ext() in DocumentExt {
        ok, actions := HandleEncryptedFile(ev, wordlists, w);
        DirectCrackFacts(config, w, ev, wordlists);
        ReplayWithoutExtraction(archiveEngine.extracted, actions, w.zipListing);
      } else if ev.Ext() == ".hash" {
        ok, actions := HandleHashFile(ev, wordlists, w);
        DirectCrackFacts(config, w, ev, wordlists);
        ReplayWithoutExtraction(archiveEngine.extracted, actions, w.zipListing);
      }
    }

    /** The body of the `execute` loop for one directory entry, without the counters. */
    method ProcessEntry(names: seq<string>, i: nat, wordlists: seq<string>, w: World) returns (step: Step)
      requires i < |names|
      requires archiveEngine.archiveDir == config.archiveDir
      modifies archiveEngine
      ensures PassSpec(config, w, wordlists, names[..i + 1]) == Extend(PassSpec(config, w, wordlists, names[..i]), step)
      ensures archiveEngine.extracted
           == Replay(old(archiveEngine.extracted), if step.Processed? then step.actions else [], w.zipListing)
    {
      PassStep(config, w, wordlists, names, i);
      var path := Join(config.inputDir, names[i]);
      if path !in w.regularFiles {
        return Skipped;
      }
      var ok, actions := Dispatch(path, wordlists, w);
      step := Processed(ok, actions);
    }

    /**
     * `execute`: aborts before looking at the input directory when no
     * wordlist exists; otherwise processes the entries in listing order,
     * counting every regular file and every success.
     */
    method Execute(w: World) returns (aborted: bool, actions: seq<Action>)
      requires Valid()
      modifies this, archiveEngine
      ensures Valid()
      ensures aborted <==> Tiers(wordlistMgr.brockyou, wordlistMgr.passphrases, w.existing) == []
      ensures aborted ==> && actions == []
                          && processedCount == old(processedCount) && successCount == old(successCount)
                          && archiveEngine.extracted == old(archiveEngine.extracted)
      ensures !aborted ==>
        var t := PassSpec(config, w, Tiers(wordlistMgr.brockyou, wordlistMgr.passphrases, w.existing), w.listing);
        && processedCount == old(processedCount) + t.processed
        && successCount == old(successCount) + t.successes
        && actions == t.actions
        && archiveEngine.extracted == Replay(old(archiveEngine.extracted), actions, w.zipListing)
    {
      var wordlists := wordlistMgr.EscalatingLists(w.existing);
      if wordlists == [] {
        return true, [];
      }
      aborted := false;
      actions := [];
      ghost var processed0, successes0 := processedCount, successCount;
      ghost var extracted0 := archiveEngine.extracted;
      for i := 0 to |w.listing|
        invariant var t := PassSpec(config, w, wordlists, w.listing[..i]);
          && processedCount == processed0 + t.processed
          && successCount == successes0 + t.successes
          && actions == t.actions
        invariant archiveEngine.extracted == Replay(extracted0, actions, w.zipListing)
        invariant successCount <= processedCount
      {
        var step := ProcessEntry(w.listing, i, wordlists, w);
        if step.Processed? {
          if step.ok {
            successCount := successCount + 1;
          }
          processedCount := processedCount + 1;
          ReplayAppend(extracted0, actions, step.actions, w.zipListing);
          actions := actions + step.actions;
        }
      }
      assert w.listing[..|w.listing|] == w.listing;
    }
  }
}
