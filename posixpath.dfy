/** `os.path.splitext` as the POSIX implementation of Python defines it. */
module PosixPath {
  import opened PyStrings

  /** `s.rfind(c)`: the last index of `c` in `s`, or -1 when there is none. */
  function RFind(s: string, c: char): (r: int)
    ensures -1 <= r < |s|
    ensures r >= 0 ==> s[r] == c
    ensures forall i | r < i < |s| :: s[i] != c
  {
    if |s| == 0 then -1
    else if s[|s| - 1] == c then |s| - 1
    else RFind(s[..|s| - 1], c)
  }

  /** `rfind` finds the occurrence after which `c` does not appear again. */
  lemma RFindAt(s: string, c: char, k: nat)
    requires k < |s| && s[k] == c && c !in s[k + 1..]
    ensures RFind(s, c) == k
  {
    assert forall i | k < i < |s| :: s[i] == s[k + 1..][i - k - 1];
  }

  /** `rfind` of a character that does not occur is -1. */
  lemma RFindAbsent(s: string, c: char)
    requires c !in s
    ensures RFind(s, c) == -1
  {
  }

  /** Some character strictly between positions `lo` and `hi` is not a '.'. */
  predicate HasStem(p: string, lo: int, hi: int) {
    exists k :: lo < k < hi && 0 <= k < |p| && p[k] != '.'
  }

  /** `os.path.splitext(p)`: the extension starts at the last '.' of the final
      path component, unless everything in that component before the dot is a
      dot too (so `.bashrc` and `..` have no extension). */
  function SplitExt(p: string): (parts: (string, string)) {
    var sepIndex := RFind(p, '/');
    var dotIndex := RFind(p, '.');
    if dotIndex > sepIndex && HasStem(p, sepIndex, dotIndex) then
      (p[..dotIndex], p[dotIndex..])
    else
      (p, "")
  }

  /** The two parts of `splitext` put back together give the path; the
      extension is empty or a '.' followed by neither '.' nor '/'; a non-empty
      extension has a character other than '.' before it in the last
      component; and an empty one means every '.' of the last component has
      only dots before it. */
  lemma SplitExtSpec(p: string)
    ensures var r := SplitExt(p);
            && r.0 + r.1 == p
            && (r.1 == [] || (r.1[0] == '.' && forall i | 1 <= i < |r.1| :: r.1[i] != '.' && r.1[i] != '/'))
            && (r.1 != [] ==> exists k :: RFind(p, '/') < k < |r.0| && p[k] != '.')
            && (r.1 == [] ==> forall k, j | RFind(p, '/') < j < k < |p| && p[k] == '.' :: p[j] == '.')
  {
  }

  /** The extension part of `os.path.splitext(p)`. */
  function Extension(p: string): (ext: string) {
    SplitExt(p).1
  }

  /** Lower-casing never moves a '/' or a '.', so `rfind` of either is unchanged. */
  lemma RFindLower(p: string, c: char)
    requires c == '/' || c == '.'
    ensures RFind(Lower(p), c) == RFind(p, c)
  {
    var q := Lower(p);
    assert forall i | 0 <= i < |p| :: q[i] == c <==> p[i] == c;
    var a, b := RFind(p, c), RFind(q, c);
    if a >= 0 {
      assert q[a] == c;
    }
    if b >= 0 {
      assert p[b] == c;
    }
  }

  /** The extension is the piece from `dot` on when that is the last '.', no
      '/' follows position `k`, and `k` holds a character other than '.'. */
  lemma ExtensionFrom(p: string, dot: nat, k: nat)
    requires k < dot < |p| && p[dot] == '.' && p[k] != '.'
    requires forall i | k <= i < |p| && i != dot :: p[i] != '.' && p[i] != '/'
    ensures Extension(p) == p[dot..]
  {
    assert RFind(p, '.') == dot;
    assert RFind(p, '/') < k;
  }

  /** The extension of the lower-cased path is the lower-cased extension. */
  lemma ExtensionLower(p: string)
    ensures Extension(Lower(p)) == Lower(Extension(p))
  {
    var q := Lower(p);
    RFindLower(p, '/');
    RFindLower(p, '.');
    var sepIndex := RFind(p, '/');
    var dotIndex := RFind(p, '.');
    HasStemLower(p, sepIndex, dotIndex);
    if dotIndex > sepIndex && HasStem(p, sepIndex, dotIndex) {
      LowerSlice(p, dotIndex, |p|);
      assert p[dotIndex..|p|] == p[dotIndex..];
      assert q[dotIndex..|p|] == q[dotIndex..];
    }
  }

  /** Lower-casing keeps every '.' and every other character, so it keeps stems. */
  lemma HasStemLower(p: string, lo: int, hi: int)
    ensures HasStem(Lower(p), lo, hi) <==> HasStem(p, lo, hi)
  {
    var q := Lower(p);
    if HasStem(p, lo, hi) {
      var k :| lo < k < hi && 0 <= k < |p| && p[k] != '.';
      assert q[k] != '.';
    }
    if HasStem(q, lo, hi) {
      var k :| lo < k < hi && 0 <= k < |q| && q[k] != '.';
      assert p[k] != '.';
    }
  }

  /** An extension is empty or begins with '.', so it is never `Dockerfile`;
      and it holds no '.' after the first, so it is never `.tfstate.backup`.
      Both hold of the extension as it is and lower-cased. */
  lemma ExtensionShape(p: string)
    ensures Extension(p) != "Dockerfile" && Lower(Extension(p)) != "Dockerfile"
    ensures Extension(p) != ".tfstate.backup" && Lower(Extension(p)) != ".tfstate.backup"
  {
    var e := Extension(p);
    var l := Lower(e);
    if |e| > 0 {
      assert l[0] == '.';
    }
    if |e| == 15 {
      assert e[8] != '.';
      assert l[8] == LowerChar(e[8]) != '.';
    }
  }
}
