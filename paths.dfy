/**
 * POSIX path helpers with the semantics of Python's `os.path.basename`,
 * `os.path.splitext` and `os.path.join`.
 */
module Paths {
  import opened Wrappers
  import opened Strings

  /** Index of the last occurrence of `c` in `s`, if there is one. */
  function LastIndex(s: string, c: char): (k: Option<nat>)
    ensures k.Some? ==> k.value < |s|
  {
    if s == [] then None
    else if s[|s| - 1] == c then Some(|s| - 1)
    else LastIndex(s[..|s| - 1], c)
  }

  /** `LastIndex` finds an occurrence of `c`, and none comes after it. */
  lemma {:induction false} LastIndexFacts(s: string, c: char)
    ensures var k := LastIndex(s, c);
      && (k.Some? ==> s[k.value] == c)
      && forall j :: (if k.Some? then k.value + 1 else 0) <= j < |s| ==> s[j] != c
  {
    if s != [] && s[|s| - 1] != c {
      LastIndexFacts(s[..|s| - 1], c);
    }
  }

  /** `os.path.basename`: everything after the last `/`. */
  function Basename(p: string): string
  {
    match LastIndex(p, '/')
    case Some(k) => p[k + 1..]
    case None => p
  }

  /** The basename is the slash-free tail of the path that follows its last separator. */
  lemma BasenameShape(p: string)
    ensures var b := Basename(p);
      && '/' !in b && |b| <= |p| && b == p[|p| - |b|..]
      && (|b| < |p| ==> p[|p| - |b| - 1] == '/')
  {
    LastIndexFacts(p, '/');
  }

  /** Appending a slash-free name after a separator (or to nothing) makes it the basename. */
  lemma BasenameAfterSeparator(x: string, b: string)
    requires '/' !in b
    requires x == [] || x[|x| - 1] == '/'
    ensures Basename(x + b) == b
  {
    var s := x + b;
    if x == [] {
      assert s == b;
      LastIndexFacts(b, '/');
    } else {
      var k := LastIndex(s, '/');
      LastIndexFacts(s, '/');
      assert s[|x| - 1] == '/';
      assert s[|x|..] == b;
    }
  }

  /** Number of dots at the start of `b`. */
  function LeadingDots(b: string): (n: nat)
    ensures n <= |b|
  {
    if b == [] || b[0] != '.' then 0 else 1 + LeadingDots(b[1..])
  }

  /** `LeadingDots` counts exactly the dots in front of the first other character. */
  lemma {:induction false} LeadingDotsFacts(b: string)
    ensures var n := LeadingDots(b);
      && (forall j :: 0 <= j < n ==> b[j] == '.')
      && (n < |b| ==> b[n] != '.')
  {
    if b != [] && b[0] == '.' {
      LeadingDotsFacts(b[1..]);
    }
  }

  /** Some character before index `k` of `b` is not a dot. */
  predicate NonDotBefore(b: string, k: nat)
    requires k <= |b|
  {
    exists j :: 0 <= j < k && b[j] != '.'
  }

  /**
   * Where the extension of a file name starts, as `splitext` decides it: at
   * the last dot, provided something other than dots precedes that dot;
   * otherwise (no dot, or a name such as `.hash` or `..`) at the end.
   */
  function ExtStart(b: string): (k: nat)
    ensures k <= |b|
  {
    match LastIndex(b, '.')
    case Some(k) => if LeadingDots(b) < k then k else |b|
    case None => |b|
  }

  /** The extension of a file name. */
  function NameExt(b: string): string
  {
    b[ExtStart(b)..]
  }

  /** The second half of `os.path.splitext(p)`. */
  function Ext(p: string): string
  {
    NameExt(Basename(p))
  }

  /** The first half of `os.path.splitext(os.path.basename(p))`. */
  function Stem(p: string): string
  {
    var b := Basename(p);
    b[..ExtStart(b)]
  }

  /** `os.path.splitext(p)[1].lower()`, the extension every classifier uses. */
  function LowerExt(p: string): string
  {
    Lower(Ext(p))
  }

  /**
   * The extension of a name is empty or a dot followed by no further dot,
   * and the stem in front of a non-empty extension is not made of dots alone.
   */
  lemma NameExtShape(b: string)
    ensures var e := NameExt(b);
      && (e != [] ==> e[0] == '.' && (forall j :: 1 <= j < |e| ==> e[j] != '.')
                      && NonDotBefore(b, ExtStart(b)))
  {
    var k := ExtStart(b);
    LastIndexFacts(b, '.');
    LeadingDotsFacts(b);
    if k < |b| {
      assert b[LeadingDots(b)] != '.';
    }
  }

  /** `Stem` and `Ext` split the basename, and neither holds a separator. */
  lemma ExtShape(p: string)
    ensures Stem(p) + Ext(p) == Basename(p)
    ensures '/' !in Ext(p) && '/' !in Stem(p)
  {
    var b := Basename(p);
    BasenameShape(p);
    assert b == b[..ExtStart(b)] + b[ExtStart(b)..];
  }

  /** A name whose only dot is its first character (`.hash`) has no extension. */
  lemma LeadingDotOnly(p: string)
    requires var b := Basename(p); |b| > 0 && b[0] == '.' && '.' !in b[1..]
    ensures Ext(p) == []
  {
    LastIndexFacts(Basename(p), '.');
  }

  /** `os.path.join(a, b)` for one component. */
  function Join(a: string, b: string): string
  {
    if b != [] && b[0] == '/' then b
    else if a == [] || a[|a| - 1] == '/' then a + b
    else a + "/" + b
  }

  /** Joining a relative, slash-free name gives a path whose basename is that name. */
  lemma JoinBasename(a: string, b: string)
    requires '/' !in b
    ensures Basename(Join(a, b)) == b
    ensures EndsWith(Join(a, b), b)
  {
    if a == [] || a[|a| - 1] == '/' {
      BasenameAfterSeparator(a, b);
    } else {
      assert a + "/" + b == (a + "/") + b;
      BasenameAfterSeparator(a + "/", b);
    }
  }

  /**
   * A file `x + e` written into directory `d`, where `x` is a slash-free
   * name not starting with a dot and `e` a dot followed by a plain suffix,
   * has stem `x` and extension `e`.
   */
  lemma StemOfJoined(d: string, x: string, e: string)
    requires x != [] && x[0] != '.' && '/' !in x
    requires |e| > 0 && e[0] == '.' && '.' !in e[1..] && '/' !in e
    ensures Stem(Join(d, x + e)) == x
    ensures Ext(Join(d, x + e)) == e
  {
    var b := x + e;
    JoinBasename(d, b);
    LastIndexFacts(b, '.');
    LeadingDotsFacts(b);
    assert b[|x|] == '.';
    forall j | |x| < j < |b| ensures b[j] != '.' {
      assert b[j] == e[1..][j - |x| - 1];
    }
    assert b[..|x|] == x;
    assert b[|x|..] == e;
  }
}
