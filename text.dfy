/**
 * String helpers shared by the model: JavaScript's `trim`, ASCII lower-casing,
 * prefix / suffix / substring tests, and `split` / `join` on one character.
 * Strings are sequences of characters; JavaScript counts UTF-16 code units,
 * which agrees with the model for every character of the Basic Multilingual Plane.
 */
module Text {

  /** The WhiteSpace and LineTerminator characters of ECMAScript: what `trim` removes and `\s` matches. */
  predicate IsJsSpace(c: char) {
    || c == ' ' || c == '\t' || c == '\n' || c == '\r'
    || c == '\U{000B}' || c == '\U{000C}' || c == '\U{00A0}' || c == '\U{FEFF}'
    || c == '\U{1680}' || ('\U{2000}' <= c <= '\U{200A}')
    || c == '\U{2028}' || c == '\U{2029}' || c == '\U{202F}' || c == '\U{205F}' || c == '\U{3000}'
  }

  predicate HasJsSpace(s: string) {
    exists i | 0 <= i < |s| :: IsJsSpace(s[i])
  }

  /** `s` without its leading white space. */
  function TrimStart(s: string): (r: string)
    ensures |r| <= |s| && r == s[|s| - |r|..]
    ensures r == [] || !IsJsSpace(r[0])
    ensures forall k :: 0 <= k < |s| - |r| ==> IsJsSpace(s[k])
  {
    if |s| > 0 && IsJsSpace(s[0]) then TrimStart(s[1..]) else s
  }

  /** `s` without its trailing white space. */
  function TrimEnd(s: string): (r: string)
    ensures |r| <= |s| && r == s[..|r|]
    ensures r == [] || !IsJsSpace(r[|r| - 1])
    ensures forall k :: |r| <= k < |s| ==> IsJsSpace(s[k])
  {
    if |s| > 0 && IsJsSpace(s[|s| - 1]) then TrimEnd(s[..|s| - 1]) else s
  }

  /** `String.prototype.trim`. */
  function Trim(s: string): (r: string)
    ensures |r| <= |s|
    ensures r == [] || (!IsJsSpace(r[0]) && !IsJsSpace(r[|r| - 1]))
  {
    TrimEnd(TrimStart(s))
  }

  lemma TrimStartNoop(s: string)
    requires s == [] || !IsJsSpace(s[0])
    ensures TrimStart(s) == s
  {
  }

  lemma TrimEndNoop(s: string)
    requires s == [] || !IsJsSpace(s[|s| - 1])
    ensures TrimEnd(s) == s
  {
  }

  /** A string with no white space at either end is its own trim. */
  lemma TrimNoop(s: string)
    requires s == [] || (!IsJsSpace(s[0]) && !IsJsSpace(s[|s| - 1]))
    ensures Trim(s) == s
  {
    TrimStartNoop(s);
    TrimEndNoop(s);
  }

  /** Trimming twice is trimming once. */
  lemma TrimIdempotent(s: string)
    ensures Trim(Trim(s)) == Trim(s)
  {
    TrimNoop(Trim(s));
  }

  /** A string made of white space only trims to the empty string. */
  lemma {:induction false} TrimAllSpace(s: string)
    requires forall k :: 0 <= k < |s| ==> IsJsSpace(s[k])
    ensures Trim(s) == []
  {
    if |s| > 0 {
      TrimAllSpace(s[1..]);
    }
  }

  function LowerChar(c: char): char {
    if 'A' <= c <= 'Z' then (c as int + 32) as char else c
  }

  /** `toLowerCase` on the ASCII letters; other characters are kept. */
  function ToLower(s: string): (r: string)
    ensures |r| == |s|
    ensures forall i :: 0 <= i < |s| ==> r[i] == LowerChar(s[i])
  {
    seq(|s|, i requires 0 <= i < |s| => LowerChar(s[i]))
  }

  lemma ToLowerIdempotent(s: string)
    ensures ToLower(ToLower(s)) == ToLower(s)
  {
  }

  /** A text without capital letters is its own lower case. */
  lemma ToLowerKeepsLower(s: string)
    requires forall k | 0 <= k < |s| :: !('A' <= s[k] <= 'Z')
    ensures ToLower(s) == s
  {
  }

  lemma ToLowerAppend(a: string, b: string)
    ensures ToLower(a + b) == ToLower(a) + ToLower(b)
  {
  }

  predicate StartsWith(s: string, p: string) {
    |p| <= |s| && s[..|p|] == p
  }

  predicate EndsWith(s: string, p: string) {
    |p| <= |s| && s[|s| - |p|..] == p
  }

  /** `s.includes(sub)`. */
  predicate Contains(s: string, sub: string) {
    exists i | 0 <= i <= |s| - |sub| :: OccursAt(s, sub, i)
  }

  predicate OccursAt(s: string, sub: string, i: int) {
    0 <= i && i + |sub| <= |s| && s[i..i + |sub|] == sub
  }

  lemma ContainsAt(s: string, sub: string, i: int)
    requires 0 <= i && i + |sub| <= |s| && s[i..i + |sub|] == sub
    ensures Contains(s, sub)
  {
    assert OccursAt(s, sub, i);
  }

  /** The position of the first `c` in `s`. */
  function IndexOf(s: string, c: char): (i: nat)
    requires c in s
    ensures i < |s| && s[i] == c && c !in s[..i]
  {
    if s[0] == c then 0 else 1 + IndexOf(s[1..], c)
  }

  /** `s.split(d)` for a one-character separator. */
  function Split(s: string, d: char): (r: seq<string>)
    ensures |r| >= 1
    ensures forall k :: 0 <= k < |r| ==> d !in r[k]
    decreases |s|
  {
    if d !in s then [s]
    else
      var i := IndexOf(s, d);
      [s[..i]] + Split(s[i + 1..], d)
  }

  /** `parts.join(sep)`. */
  function Join(parts: seq<string>, sep: string): string {
    if |parts| == 0 then ""
    else if |parts| == 1 then parts[0]
    else parts[0] + sep + Join(parts[1..], sep)
  }

  /** Joining the pieces of a split with the separator gives back the string. */
  lemma {:induction false} JoinSplit(s: string, d: char)
    ensures Join(Split(s, d), [d]) == s
    decreases |s|
  {
    if d in s {
      var i := IndexOf(s, d);
      var rest := s[i + 1..];
      JoinSplit(rest, d);
      assert Split(s, d) == [s[..i]] + Split(rest, d);
      assert s == s[..i] + [d] + rest;
    }
  }

  /** Splitting a join of separator-free pieces gives back the pieces. */
  lemma {:induction false} SplitJoin(parts: seq<string>, d: char)
    requires |parts| >= 1
    requires forall k :: 0 <= k < |parts| ==> d !in parts[k]
    ensures Split(Join(parts, [d]), d) == parts
    decreases |parts|
  {
    if |parts| > 1 {
      var rest := Join(parts[1..], [d]);
      var s := parts[0] + [d] + rest;
      assert Join(parts, [d]) == s;
      assert d in s by { assert s[|parts[0]|] == d; }
      var i := IndexOf(s, d);
      assert i == |parts[0]|;
      assert s[..i] == parts[0];
      assert s[i + 1..] == rest;
      SplitJoin(parts[1..], d);
      assert Split(s, d) == [parts[0]] + parts[1..];
    }
  }

  /** A character in none of the pieces nor the separator is not in their join. */
  lemma {:induction false} JoinAvoids(parts: seq<string>, sep: string, c: char)
    requires forall k | 0 <= k < |parts| :: c !in parts[k]
    requires c !in sep
    ensures c !in Join(parts, sep)
  {
    if |parts| > 1 {
      JoinAvoids(parts[1..], sep, c);
      assert parts[0] == parts[..][0];
    }
  }

  /** A character absent from a text is absent from every piece of its split. */
  lemma {:induction false} SplitAvoids(s: string, d: char, c: char)
    requires c !in s
    ensures forall k | 0 <= k < |Split(s, d)| :: c !in Split(s, d)[k]
    decreases |s|
  {
    if d in s {
      var i := IndexOf(s, d);
      assert c !in s[..i] && c !in s[i + 1..] by {
        assert forall x | x in s[..i] :: x in s;
        assert forall x | x in s[i + 1..] :: x in s;
      }
      SplitAvoids(s[i + 1..], d, c);
      assert Split(s, d) == [s[..i]] + Split(s[i + 1..], d);
    }
  }

  /** A character other than the separator that occurs in a text occurs in one of its pieces. */
  lemma SplitKeepsChar(s: string, d: char, c: char)
    requires c in s && c != d
    ensures exists k | 0 <= k < |Split(s, d)| :: c in Split(s, d)[k]
  {
    if forall k | 0 <= k < |Split(s, d)| :: c !in Split(s, d)[k] {
      JoinSplit(s, d);
      JoinAvoids(Split(s, d), [d], c);
    }
  }

  /** `host === domain || host.endsWith("." + domain)`. */
  predicate OnDomain(host: string, domain: string) {
    host == domain || EndsWith(host, "." + domain)
  }

  /** Every subdomain of a domain is on it. */
  lemma SubdomainIsOnDomain(sub: string, domain: string)
    ensures OnDomain(sub + "." + domain, domain)
  {
    assert (sub + "." + domain)[|sub|..] == "." + domain;
  }

  /** A host on a domain is the domain itself or ends with it right after a dot, so
    * a look-alike such as "evil" + domain is not on it. */
  lemma OnDomainBoundary(host: string, domain: string)
    requires OnDomain(host, domain) && host != domain
    ensures |host| > |domain| && host[|host| - |domain| - 1] == '.' && host[|host| - |domain|..] == domain
  {
    var k := |host| - |domain| - 1;
    assert host[k..] == "." + domain;
    assert host[k] == host[k..][0];
    assert host[|host| - |domain|..] == host[k..][1..];
  }
}
