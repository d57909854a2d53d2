/**
 * The browser extension's test for pages it must not try to capture: anything
 * that is not a non-empty string, and any URL whose trimmed text starts,
 * ignoring ASCII case, with one of the browser-internal schemes.
 */
module RestrictedUrl {
  import opened Text
  import opened JsValue

  /** The scheme prefixes matched case-insensitively after trimming (lower case). */
  const RestrictedPrefixes: seq<string> := ["chrome:", "chrome-extension:", "edge:", "about:", "file:", "view-source:"]

  predicate HasRestrictedPrefix(t: string) {
    exists k | 0 <= k < |RestrictedPrefixes| :: StartsWith(t, RestrictedPrefixes[k])
  }

  /** The trimmed text is empty or starts with a restricted scheme. */
  predicate RestrictedText(s: string) {
    var t := ToLower(Trim(s));
    t == "" || HasRestrictedPrefix(t)
  }

  /** `isRestrictedUrl(rawUrl)`. */
  predicate IsRestrictedUrl(raw: JsValue) {
    !Truthy(raw) || !raw.Str? || RestrictedText(raw.s)
  }

  /** Anything but a non-empty string is restricted. */
  lemma NonStringIsRestricted(raw: JsValue)
    requires !raw.Str? || raw.s == ""
    ensures IsRestrictedUrl(raw)
  {
  }

  /** A string of white space only is restricted. */
  lemma BlankIsRestricted(s: string)
    requires forall k :: 0 <= k < |s| ==> IsJsSpace(s[k])
    ensures IsRestrictedUrl(Str(s))
  {
    TrimAllSpace(s);
  }

  /** Every restricted scheme is recognised in any letter case, with any text after it
    * and white space around it. */
  lemma RestrictedSchemeIsRestricted(k: nat, scheme: string, rest: string)
    requires k < |RestrictedPrefixes|
    requires ToLower(scheme) == RestrictedPrefixes[k]
    requires rest == [] || !IsJsSpace(rest[|rest| - 1])
    ensures IsRestrictedUrl(Str(" " + scheme + rest))
  {
    var p := RestrictedPrefixes[k];
    var s := scheme + rest;
    SchemeEnds(k, scheme);
    assert s[0] == scheme[0];
    assert !IsJsSpace(s[|s| - 1]) by {
      if rest == [] { assert s[|s| - 1] == scheme[|scheme| - 1]; }
      else { assert s[|s| - 1] == rest[|rest| - 1]; }
    }
    TrimOfPadded(s);
    assert " " + scheme + rest == " " + s;
    ToLowerAppend(scheme, rest);
    StartsWithAppend(p, ToLower(rest));
    assert HasRestrictedPrefix(ToLower(s));
    RestrictedStr(" " + s);
  }

  /** A scheme that lower-cases to a restricted prefix starts with a letter and ends in ':'. */
  lemma SchemeEnds(k: nat, scheme: string)
    requires k < |RestrictedPrefixes| && ToLower(scheme) == RestrictedPrefixes[k]
    ensures |scheme| > 0 && !IsJsSpace(scheme[0]) && scheme[|scheme| - 1] == ':'
  {
    var p := RestrictedPrefixes[k];
    assert |p| > 0 && 'a' <= p[0] <= 'z' && p[|p| - 1] == ':';
    assert LowerChar(scheme[0]) == p[0] && LowerChar(scheme[|scheme| - 1]) == p[|p| - 1];
  }

  /** For a string, the test is the restricted-text test. */
  lemma RestrictedStr(s: string)
    ensures IsRestrictedUrl(Str(s)) <==> RestrictedText(s)
  {
    if s == "" {
      assert Trim(s) == "";
    }
  }

  /** One leading space is trimmed from a text with no white space at either end. */
  lemma TrimOfPadded(s: string)
    requires |s| > 0 && !IsJsSpace(s[0]) && !IsJsSpace(s[|s| - 1])
    ensures Trim(" " + s) == s
  {
    assert (" " + s)[1..] == s;
    assert TrimStart(" " + s) == TrimStart(s);
    TrimNoop(s);
  }

  lemma StartsWithAppend(p: string, rest: string)
    ensures StartsWith(p + rest, p)
  {
    assert (p + rest)[..|p|] == p;
  }

  /** A text whose first character differs from a prefix's does not start with it. */
  lemma FirstCharDiffers(t: string, p: string)
    requires |t| > 0 && |p| > 0 && t[0] != p[0]
    ensures !StartsWith(t, p)
  {
    if |p| <= |t| {
      assert t[..|p|][0] == t[0];
    }
  }

  /** Texts starting with "http://" or "https://" have no restricted prefix. */
  lemma HttpTextIsNotRestricted(t: string)
    requires StartsWith(t, "http://") || StartsWith(t, "https://")
    ensures t != "" && !HasRestrictedPrefix(t)
  {
    assert t[0] == 'h' by {
      if StartsWith(t, "http://") { assert t[..7][0] == t[0]; }
      else { assert t[..8][0] == t[0]; }
    }
    forall k | 0 <= k < |RestrictedPrefixes| ensures !StartsWith(t, RestrictedPrefixes[k]) {
      FirstCharDiffers(t, RestrictedPrefixes[k]);
    }
  }

  /** http:// and https:// URLs (in any letter case) are not restricted. */
  lemma WebUrlIsNotRestricted(s: string)
    requires var t := ToLower(Trim(s)); StartsWith(t, "http://") || StartsWith(t, "https://")
    ensures !IsRestrictedUrl(Str(s))
  {
    var t := ToLower(Trim(s));
    HttpTextIsNotRestricted(t);
    RestrictedStr(s);
  }

  lemma PrefixDecides(t1: string, t2: string)
    requires |t1| >= 17 && |t2| >= 17 && t1[..17] == t2[..17]
    ensures HasRestrictedPrefix(t1) <==> HasRestrictedPrefix(t2)
  {
    forall k | 0 <= k < |RestrictedPrefixes| ensures StartsWith(t1, RestrictedPrefixes[k]) <==> StartsWith(t2, RestrictedPrefixes[k]) {
      var p := RestrictedPrefixes[k];
      assert |p| <= 17;
      assert t1[..|p|] == t1[..17][..|p|];
      assert t2[..|p|] == t2[..17][..|p|];
    }
  }

  /** Only the first 17 characters of the trimmed text matter: the longest
    * restricted prefix, "chrome-extension:", has 17. */
  lemma RestrictedDependsOnPrefix(s1: string, s2: string)
    requires |Trim(s1)| >= 17 && |Trim(s2)| >= 17
    requires ToLower(Trim(s1))[..17] == ToLower(Trim(s2))[..17]
    ensures IsRestrictedUrl(Str(s1)) <==> IsRestrictedUrl(Str(s2))
  {
    var t1, t2 := ToLower(Trim(s1)), ToLower(Trim(s2));
    PrefixDecides(t1, t2);
    assert t1 != "" && t2 != "";
    RestrictedStr(s1);
    RestrictedStr(s2);
  }
}
