/** The record kept for each piece of evidence. */
module Models {
  import opened Wrappers
  import opened Strings
  import opened Paths

  /**
   * One input file and what is known about it. `name` and `ext` are not
   * stored: they are recomputed from `path` on every read.
   */
  datatype EvidenceFile = EvidenceFile(
    path: string,
    fileType: string,
    mimeType: string,
    isGraphic: bool,
    isArchive: bool,
    knownHashAlgo: Option<string>,
    knownEncryptionAlgo: Option<string>,
    metadata: map<string, string>)
  {
    /** The last component of the path. */
    function Name(): string
    {
      Basename(path)
    }

    /** The lower-cased final suffix of the path, as `os.path.splitext` finds it. */
    function Ext(): string
    {
      LowerExt(path)
    }
  }

  /** A record built from its path alone, every other field at its default. */
  function NewEvidence(path: string): (e: EvidenceFile)
    ensures e.path == path
    ensures e.knownHashAlgo == None && e.knownEncryptionAlgo == None
    ensures !e.isGraphic && !e.isArchive
    ensures e.fileType == "" && e.mimeType == "" && e.metadata == map[]
  {
    EvidenceFile(path, "", "", false, false, None, None, map[])
  }

  /** `name` holds no separator and is the end of the path. */
  lemma NameFacts(e: EvidenceFile)
    ensures '/' !in e.Name() && EndsWith(e.path, e.Name())
  {
    BasenameShape(e.path);
  }

  /** `ext` is empty or a dot followed by no further dot, and holds no capital letter. */
  lemma ExtForm(e: EvidenceFile)
    ensures e.Ext() == [] || (e.Ext()[0] == '.' && '.' !in e.Ext()[1..])
    ensures IsLower(e.Ext())
  {
    var x := Ext(e.path);
    NameExtShape(Basename(e.path));
    LowerIsLower(x);
    if x != [] {
      forall j | 1 <= j < |x| ensures e.Ext()[j] != '.' {
        assert x[j] != '.';
      }
      assert forall c :: c in e.Ext()[1..] ==> c != '.';
    }
  }

  /** `ext` is a suffix of the lower-cased `name`. */
  lemma ExtEndsName(e: EvidenceFile)
    ensures EndsWith(Lower(e.Name()), e.Ext())
  {
    var b := Basename(e.path);
    var x := Ext(e.path);
    ExtShape(e.path);
    assert b[|b| - |x|..] == x;
    LowerSlice(b, |b| - |x|, |b|);
  }

  /** A name such as `.hash`, whose only dot leads it, has no extension. */
  lemma DotNameHasNoExt(e: EvidenceFile)
    requires |e.Name()| > 0 && e.Name()[0] == '.' && '.' !in e.Name()[1..]
    ensures e.Ext() == []
  {
    LeadingDotOnly(e.path);
  }
}
