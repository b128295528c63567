/** String helpers matching the JavaScript built-ins the service uses. */
module Strings {
  /** `s.startsWith(p)` */
  predicate HasPrefix(s: string, p: string) {
    |p| <= |s| && s[..|p|] == p
  }

  /** `s.includes(sub)` */
  predicate Contains(s: string, sub: string)
    decreases |s|
  {
    HasPrefix(s, sub) || (|s| > 0 && Contains(s[1..], sub))
  }

  /** One differing character rules out a prefix. */
  lemma PrefixMismatch(s: string, p: string, k: nat)
    requires k < |p| && k < |s| && s[k] != p[k]
    ensures !HasPrefix(s, p)
  {
    if |p| <= |s| {
      assert s[..|p|][k] == s[k];
    }
  }

  lemma {:induction false} ShortNotContains(s: string, sub: string)
    requires |s| < |sub|
    ensures !Contains(s, sub)
    decreases |s|
  {
    if |s| > 0 {
      ShortNotContains(s[1..], sub);
    }
  }

  /** ASCII lower-casing; the only case folding a case-insensitive match against an
      ASCII pattern can observe in a non-unicode JavaScript regular expression. */
  function Lower(c: char): (r: char)
    ensures 'A' <= c <= 'Z' ==> r == c - 'A' + 'a'
    ensures !('A' <= c <= 'Z') ==> r == c
  {
    if 'A' <= c <= 'Z' then (c as int - 'A' as int + 'a' as int) as char else c
  }

  function ToLower(s: string): (r: string)
    ensures |r| == |s|
    ensures forall i :: 0 <= i < |s| ==> r[i] == Lower(s[i])
  {
    seq(|s|, i requires 0 <= i < |s| => Lower(s[i]))
  }

  /** Case-insensitive equality of `s` with the literal `lit`. */
  predicate EqualsIgnoringCase(s: string, lit: string) {
    |s| == |lit| && forall i :: 0 <= i < |s| ==> Lower(s[i]) == Lower(lit[i])
  }

  predicate HasPrefixIgnoringCase(s: string, p: string) {
    |p| <= |s| && EqualsIgnoringCase(s[..|p|], p)
  }

  /** The text after the last '/', as `path.basename` gives it for a file path. */
  function Basename(p: string): (r: string)
    ensures '/' !in r
    ensures HasSuffix(p, r)
    ensures |r| < |p| ==> p[|p| - |r| - 1] == '/'
    decreases |p|
  {
    if p == [] then []
    else if p[|p| - 1] == '/' then []
    else
      var q := p[..|p| - 1];
      var b := Basename(q);
      assert p[|p| - |b| - 1..] == q[|q| - |b|..] + [p[|p| - 1]];
      b + [p[|p| - 1]]
  }

  predicate HasSuffix(s: string, t: string) {
    |t| <= |s| && s[|s| - |t|..] == t
  }

  /** The base name of a path with a '/' before a slash-free name is that name. */
  lemma {:induction false} BasenameJoin(dir: string, name: string)
    requires '/' !in name
    ensures Basename(dir + "/" + name) == name
    decreases |name|
  {
    var p := dir + "/" + name;
    if name == [] {
      assert p[|p| - 1] == '/';
    } else {
      var init := name[..|name| - 1];
      assert p[..|p| - 1] == dir + "/" + init;
      assert p[|p| - 1] == name[|name| - 1];
      assert name[|name| - 1] in name;
      assert forall c :: c in init ==> c in name;
      BasenameJoin(dir, init);
      assert init + [name[|name| - 1]] == name;
    }
  }
}
