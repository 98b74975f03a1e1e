/**
 * Zip archives: the encryption heuristic, the pkcrack run and extraction
 * into a per-archive directory.
 */
module Archives {
  import opened Wrappers
  import opened Strings
  import opened Paths
  import opened Attempts

  /** One member of a zip's central directory. */
  datatype ZipEntry = ZipEntry(filename: string, flagBits: bv16)

  /** What opening a file as a zip gives: its members, or `BadZipFile`. */
  datatype ZipListing = Readable(entries: seq<ZipEntry>) | BadZip

  /** General-purpose flag bit 0: the member is encrypted. */
  predicate Encrypted(entry: ZipEntry)
  {
    entry.flagBits & 1 == 1
  }

  /** `detect_zip_encryption`, as a value: ZipCrypto as soon as one member is encrypted. */
  function ZipHint(listing: ZipListing): Option<string>
  {
    if listing.Readable? && exists i :: 0 <= i < |listing.entries| && Encrypted(listing.entries[i])
    then Some("zipcrypto")
    else None
  }

  /**
   * The heuristic never says "aes": it answers "zipcrypto" iff a readable
   * archive has an encrypted member, and nothing for a bad or empty archive.
   */
  lemma ZipHintFacts(listing: ZipListing)
    ensures ZipHint(listing) != Some("aes")
    ensures ZipHint(listing).Some? ==> ZipHint(listing) == Some("zipcrypto")
    ensures ZipHint(listing) == Some("zipcrypto")
        <==> listing.Readable? && exists e :: e in listing.entries && Encrypted(e)
    ensures listing == BadZip || listing == Readable([]) ==> ZipHint(listing) == None
  {
    if listing.Readable? && exists e :: e in listing.entries && Encrypted(e) {
      var e :| e in listing.entries && Encrypted(e);
      var i :| 0 <= i < |listing.entries| && listing.entries[i] == e;
      assert Encrypted(listing.entries[i]);
    }
  }

  /** The names `extractall` creates, or nothing when the archive is unreadable. */
  function EntryNames(listing: ZipListing): (names: seq<string>)
    ensures |names| == (if listing.Readable? then |listing.entries| else 0)
    ensures listing.Readable? ==> forall i :: 0 <= i < |names| ==> names[i] == listing.entries[i].filename
  {
    match listing
    case BadZip => []
    case Readable(entries) => seq(|entries|, i requires 0 <= i < |entries| => entries[i].filename)
  }

  /**
   * The state of the archive directory: for each sub-directory this engine
   * created, the names extracted into it.
   */
  class ArchiveEngine {
    const archiveDir: string
    var extracted: map<string, seq<string>>

    constructor (archiveDir: string)
      ensures this.archiveDir == archiveDir && extracted == map[]
    {
      this.archiveDir := archiveDir;
      extracted := map[];
    }

    /** `detect_zip_encryption`: scans the members and stops at the first encrypted one. */
    method DetectZipEncryption(listing: ZipListing) returns (hint: Option<string>)
      ensures hint == ZipHint(listing)
    {
      match listing {
        case BadZip =>
          return None;
        case Readable(entries) =>
          for i := 0 to |entries|
            invariant forall j :: 0 <= j < i ==> !Encrypted(entries[j])
          {
            if entries[i].flagBits & 1 == 1 {
              return Some("zipcrypto");
            }
          }
          return None;
      }
    }

    /** `run_pkcrack`: one pkcrack run, successful iff it exits with status 0. */
    method RunPkcrack(encryptedZip: string, plaintextZip: string, plaintextFile: string,
                      outputZip: string, exitCode: Action -> int)
      returns (ok: bool, run: Action)
      ensures run == Pkcrack(encryptedZip, plaintextZip, plaintextFile, outputZip)
      ensures ok <==> exitCode(run) == 0
    {
      run := Pkcrack(encryptedZip, plaintextZip, plaintextFile, outputZip);
      var status := exitCode(run);
      ok := status == 0;
    }

    /** The directory an archive is extracted into: `archive_dir/<stem>`. */
    function OutDir(zipPath: string): string
    {
      Join(archiveDir, Stem(zipPath))
    }

    /**
     * `extract_to_archive_dir`: empties (or creates) the archive's own
     * directory, extracts into it, and returns it even when the archive
     * could not be read.
     */
    method ExtractToArchiveDir(zipPath: string, listing: ZipListing) returns (outDir: string)
      modifies this
      ensures outDir == OutDir(zipPath)
      ensures extracted == old(extracted)[outDir := EntryNames(listing)]
    {
      outDir := Join(archiveDir, Stem(zipPath));
      extracted := extracted[outDir := []];
      match listing {
        case BadZip =>
        case Readable(entries) =>
          extracted := extracted[outDir := EntryNames(listing)];
      }
    }

    /**
     * The extraction directory sits directly inside `archive_dir` and is
     * named after the archive's stem.
     */
    lemma OutDirFacts(zipPath: string)
      ensures Basename(OutDir(zipPath)) == Stem(zipPath)
      ensures EndsWith(OutDir(zipPath), Stem(zipPath))
    {
      ExtShape(zipPath);
      JoinBasename(archiveDir, Stem(zipPath));
    }
  }
}
