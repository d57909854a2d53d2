/**
 * The server-side request forgery guard used before the server fetches a URL
 * on a user's behalf: which IPv4 and IPv6 literals count as private, and
 * which parsed URLs may be fetched at all. Parsing the URL itself is the
 * platform's WHATWG URL parser and is not modelled: `Url` holds the parts it
 * produces. `Number(s)` on strings that are not plain ASCII digits is the
 * parameter `parseOther` (None standing for NaN).
 */
module Ssrf {
  import opened Wrappers
  import opened Text
  import opened Decimal

  /** The parts of a parsed `URL` that the guard reads. */
  datatype Url = Url(protocol: string, port: string, hostname: string)

  // ---------------------------------------------------------------------------
  // A reference definition of the private IPv4 ranges, as CIDR blocks
  // ---------------------------------------------------------------------------

  /** The 32-bit address a.b.c.d. */
  function Address(a: nat, b: nat, c: nat, d: nat): nat {
    a * 16777216 + b * 65536 + c * 256 + d
  }

  /** A CIDR block `base/prefix`, with `span` = 2^(32 - prefix) addresses; the
    * base of every block below is a multiple of its span. */
  datatype Cidr = Cidr(base: nat, prefix: nat, span: nat)

  predicate InCidr(addr: nat, block: Cidr) {
    block.base <= addr < block.base + block.span
  }

  /** 0.0.0.0/8, 10.0.0.0/8, 127.0.0.0/8, 169.254.0.0/16, 172.16.0.0/12,
    * 192.168.0.0/16 and 100.64.0.0/10, with their bases written out as numbers
    * (`AddressesOfPrivateBlocks` relates them to the dotted form). */
  const PrivateBlocks: seq<Cidr> := [
    Cidr(0, 8, 16777216),
    Cidr(167772160, 8, 16777216),
    Cidr(2130706432, 8, 16777216),
    Cidr(2851995648, 16, 65536),
    Cidr(2886729728, 12, 1048576),
    Cidr(3232235520, 16, 65536),
    Cidr(1681915904, 10, 4194304)
  ]

  lemma AddressesOfPrivateBlocks()
    ensures PrivateBlocks == [
      Cidr(Address(0, 0, 0, 0), 8, 16777216),
      Cidr(Address(10, 0, 0, 0), 8, 16777216),
      Cidr(Address(127, 0, 0, 0), 8, 16777216),
      Cidr(Address(169, 254, 0, 0), 16, 65536),
      Cidr(Address(172, 16, 0, 0), 12, 1048576),
      Cidr(Address(192, 168, 0, 0), 16, 65536),
      Cidr(Address(100, 64, 0, 0), 10, 4194304)
    ]
  {
  }

  predicate InPrivateBlock(addr: nat) {
    exists i | 0 <= i < |PrivateBlocks| :: InCidr(addr, PrivateBlocks[i])
  }

  // ---------------------------------------------------------------------------
  // isPrivateIPv4
  // ---------------------------------------------------------------------------

  /** `Number(s)`: a string of ASCII digits reads as its value ("" reads as 0);
    * any other string is read by `parseOther`. */
  function ToNumber(s: string, parseOther: string -> Option<real>): (n: Option<real>)
    ensures AllDigits(s) ==> n == Some(DecimalValue(s) as real)
  {
    if AllDigits(s) then Some(DecimalValue(s) as real) else parseOther(s)
  }

  /** An octet the guard rejects: NaN, negative, or above 255. */
  predicate BadOctet(n: Option<real>) {
    n.None? || n.value < 0.0 || n.value > 255.0
  }

  /** The two leading octets of the ranges the guard blocks. */
  predicate PrivatePrefix(a: real, b: real) {
    || a == 0.0
    || a == 10.0
    || a == 127.0
    || (a == 169.0 && b == 254.0)
    || (a == 172.0 && 16.0 <= b <= 31.0)
    || (a == 192.0 && b == 168.0)
    || (a == 100.0 && 64.0 <= b <= 127.0)
  }

  /** `isPrivateIPv4`: anything that is not four well-formed octets counts as private. */
  predicate IsPrivateIPv4(ip: string, parseOther: string -> Option<real>) {
    var parts := Split(ip, '.');
    if |parts| != 4 then true
    else
      var n0, n1, n2, n3 := ToNumber(parts[0], parseOther), ToNumber(parts[1], parseOther),
        ToNumber(parts[2], parseOther), ToNumber(parts[3], parseOther);
      if BadOctet(n0) || BadOctet(n1) || BadOctet(n2) || BadOctet(n3) then true
      else PrivatePrefix(n0.value, n1.value)
  }

  /** The dotted-quad spelling of a.b.c.d. */
  function DottedQuad(a: nat, b: nat, c: nat, d: nat): (s: string)
    ensures '.' in s
  {
    var s := NatToDecimal(a) + "." + NatToDecimal(b) + "." + NatToDecimal(c) + "." + NatToDecimal(d);
    assert s[|NatToDecimal(a)|] == '.';
    s
  }

  lemma DigitsHaveNoDot(s: string)
    requires AllDigits(s)
    ensures '.' !in s && ':' !in s
  {
  }

  /** Splitting a dotted quad on '.' gives back the four numerals. */
  lemma SplitDottedQuad(a: nat, b: nat, c: nat, d: nat)
    ensures Split(DottedQuad(a, b, c, d), '.') == [NatToDecimal(a), NatToDecimal(b), NatToDecimal(c), NatToDecimal(d)]
  {
    var parts := [NatToDecimal(a), NatToDecimal(b), NatToDecimal(c), NatToDecimal(d)];
    forall k | 0 <= k < 4 ensures '.' !in parts[k] {
      DigitsHaveNoDot(parts[k]);
    }
    JoinFour(parts[0], parts[1], parts[2], parts[3]);
    SplitJoin(parts, '.');
  }

  lemma JoinFour(w: string, x: string, y: string, z: string)
    ensures Join([w, x, y, z], ".") == w + "." + x + "." + y + "." + z
  {
    var parts := [w, x, y, z];
    assert parts[1..][1..][1..] == [z];
    assert Join(parts[1..][1..], ".") == y + "." + z;
    assert Join(parts[1..], ".") == x + "." + y + "." + z;
  }

  predicate DigitsAndDots(s: string) {
    forall k | 0 <= k < |s| :: s[k] == '.' || IsDigit(s[k])
  }

  lemma DigitsAndDotsAppend(x: string, y: string)
    requires DigitsAndDots(x) && DigitsAndDots(y)
    ensures DigitsAndDots(x + y)
  {
    forall k | 0 <= k < |x + y| ensures (x + y)[k] == '.' || IsDigit((x + y)[k]) {
      if k >= |x| { assert (x + y)[k] == y[k - |x|]; }
    }
  }

  /** Digits and dots have no upper-case letter to lower. */
  lemma DigitsAndDotsAreLower(s: string)
    requires DigitsAndDots(s)
    ensures ToLower(s) == s
  {
  }

  /** A dotted quad is made of digits and dots only, so lower-casing keeps it. */
  lemma QuadShape(a: nat, b: nat, c: nat, d: nat)
    ensures DottedDigits(DottedQuad(a, b, c, d))
    ensures DigitsAndDots(DottedQuad(a, b, c, d))
    ensures ToLower(DottedQuad(a, b, c, d)) == DottedQuad(a, b, c, d)
  {
    var q := DottedQuad(a, b, c, d);
    var w, x, y, z := NatToDecimal(a), NatToDecimal(b), NatToDecimal(c), NatToDecimal(d);
    SplitDottedQuad(a, b, c, d);
    DottedDigitsOfParts(q, w, x, y, z);
    DigitsAndDotsJoin(w, x, y, z);
    assert q == w + "." + x + "." + y + "." + z;
    DigitsAndDotsAreLower(q);
  }

  lemma DottedDigitsOfParts(q: string, w: string, x: string, y: string, z: string)
    requires Split(q, '.') == [w, x, y, z]
    requires |w| > 0 && |x| > 0 && |y| > 0 && |z| > 0
    requires AllDigits(w) && AllDigits(x) && AllDigits(y) && AllDigits(z)
    ensures DottedDigits(q)
  {
    var parts := Split(q, '.');
    assert parts[0] == w && parts[1] == x && parts[2] == y && parts[3] == z;
  }

  /** On a dotted quad the guard's octet test agrees with the CIDR table. */
  lemma {:induction false} PrivatePrefixIsCidr(a: nat, b: nat, c: nat, d: nat)
    requires a <= 255 && b <= 255 && c <= 255 && d <= 255
    ensures PrivatePrefix(a as real, b as real) <==> InPrivateBlock(Address(a, b, c, d))
  {
    var addr := Address(a, b, c, d);
    var low := c * 256 + d;
    assert 0 <= low < 65536;
    assert addr == a * 16777216 + b * 65536 + low;
    if PrivatePrefix(a as real, b as real) {
      if a == 0 { assert InCidr(addr, PrivateBlocks[0]); }
      else if a == 10 { assert InCidr(addr, PrivateBlocks[1]); }
      else if a == 127 { assert InCidr(addr, PrivateBlocks[2]); }
      else if a == 169 && b == 254 { assert InCidr(addr, PrivateBlocks[3]); }
      else if a == 172 && 16 <= b <= 31 { assert InCidr(addr, PrivateBlocks[4]); }
      else if a == 192 && b == 168 { assert InCidr(addr, PrivateBlocks[5]); }
      else { assert InCidr(addr, PrivateBlocks[6]); }
    } else {
      assert a != 0 && a != 10 && a != 127;
      assert !(a == 169 && b == 254) && !(a == 172 && 16 <= b <= 31);
      assert !(a == 192 && b == 168) && !(a == 100 && 64 <= b <= 127);
      forall i | 0 <= i < |PrivateBlocks| ensures !InCidr(addr, PrivateBlocks[i]) {
        OutsideBlock(a, b, low, i);
      }
    }
  }

  /** One block at a time: an address whose two leading octets are none of
    * block `i`'s lies outside it. */
  lemma OutsideBlock(a: nat, b: nat, low: nat, i: nat)
    requires a <= 255 && b <= 255 && low < 65536 && i < |PrivateBlocks|
    requires a != 0 && a != 10 && a != 127
    requires !(a == 169 && b == 254) && !(a == 172 && 16 <= b <= 31)
    requires !(a == 192 && b == 168) && !(a == 100 && 64 <= b <= 127)
    ensures !InCidr(a * 16777216 + b * 65536 + low, PrivateBlocks[i])
  {
    var hi := a * 16777216;
    var addr := hi + b * 65536 + low;
    assert hi <= addr < hi + 16777216;
    if i == 0 || i == 1 || i == 2 {
      if a < PrivateBlocks[i].base / 16777216 {
        assert hi + 16777216 <= PrivateBlocks[i].base;
      } else {
        assert hi >= PrivateBlocks[i].base + 16777216;
      }
    } else if i == 3 {
      if a < 169 { assert addr < 169 * 16777216; }
      else if a > 169 { assert addr >= 170 * 16777216; }
      else if b < 254 { assert addr < 169 * 16777216 + 254 * 65536; }
      else { assert addr >= 169 * 16777216 + 255 * 65536; }
    } else if i == 4 {
      if a < 172 { assert addr < 172 * 16777216; }
      else if a > 172 { assert addr >= 173 * 16777216; }
      else if b < 16 { assert addr < 172 * 16777216 + 16 * 65536; }
      else { assert addr >= 172 * 16777216 + 32 * 65536; }
    } else if i == 5 {
      if a < 192 { assert addr < 192 * 16777216; }
      else if a > 192 { assert addr >= 193 * 16777216; }
      else if b < 168 { assert addr < 192 * 16777216 + 168 * 65536; }
      else { assert addr >= 192 * 16777216 + 169 * 65536; }
    } else {
      if a < 100 { assert addr < 100 * 16777216; }
      else if a > 100 { assert addr >= 101 * 16777216; }
      else if b < 64 { assert addr < 100 * 16777216 + 64 * 65536; }
      else { assert addr >= 100 * 16777216 + 128 * 65536; }
    }
  }

  /** Four numerals: private when one is above 255 or the first two are in a private prefix. */
  lemma IsPrivateIPv4OfNumerals(ip: string, w: string, x: string, y: string, z: string, parseOther: string -> Option<real>)
    requires Split(ip, '.') == [w, x, y, z]
    requires AllDigits(w) && AllDigits(x) && AllDigits(y) && AllDigits(z)
    ensures IsPrivateIPv4(ip, parseOther) <==>
      || DecimalValue(w) > 255 || DecimalValue(x) > 255 || DecimalValue(y) > 255 || DecimalValue(z) > 255
      || PrivatePrefix(DecimalValue(w) as real, DecimalValue(x) as real)
  {
    var parts := Split(ip, '.');
    assert |parts| == 4 && parts[0] == w && parts[1] == x && parts[2] == y && parts[3] == z;
    NumeralOctet(w, parseOther);
    NumeralOctet(x, parseOther);
    NumeralOctet(y, parseOther);
    NumeralOctet(z, parseOther);
  }

  /** A numeral is a bad octet exactly when its value is above 255. */
  lemma NumeralOctet(s: string, parseOther: string -> Option<real>)
    requires AllDigits(s)
    ensures ToNumber(s, parseOther) == Some(DecimalValue(s) as real)
    ensures BadOctet(ToNumber(s, parseOther)) <==> DecimalValue(s) > 255
  {
  }

  /** A dotted quad of octets is private exactly when its address lies in one of the
    * private CIDR blocks; a numeral above 255 is rejected as malformed. */
  lemma IsPrivateIPv4OfDottedQuad(a: nat, b: nat, c: nat, d: nat, parseOther: string -> Option<real>)
    ensures a <= 255 && b <= 255 && c <= 255 && d <= 255 ==>
      (IsPrivateIPv4(DottedQuad(a, b, c, d), parseOther) <==> InPrivateBlock(Address(a, b, c, d)))
    ensures a > 255 || b > 255 || c > 255 || d > 255 ==> IsPrivateIPv4(DottedQuad(a, b, c, d), parseOther)
  {
    SplitDottedQuad(a, b, c, d);
    DecimalRoundTrip(a);
    DecimalRoundTrip(b);
    DecimalRoundTrip(c);
    DecimalRoundTrip(d);
    IsPrivateIPv4OfNumerals(DottedQuad(a, b, c, d), NatToDecimal(a), NatToDecimal(b), NatToDecimal(c), NatToDecimal(d), parseOther);
    if a <= 255 && b <= 255 && c <= 255 && d <= 255 {
      PrivatePrefixIsCidr(a, b, c, d);
    }
  }

  /** Anything that does not split into four parts on '.' is treated as private. */
  lemma MalformedIPv4IsPrivate(ip: string, parseOther: string -> Option<real>)
    requires |Split(ip, '.')| != 4
    ensures IsPrivateIPv4(ip, parseOther)
  {
  }

  // ---------------------------------------------------------------------------
  // isPrivateIPv6
  // ---------------------------------------------------------------------------

  /** The text after the last ':' of `s` (all of `s` when it has none). */
  function AfterLastColon(s: string): (t: string)
    ensures |t| <= |s| && t == s[|s| - |t|..]
    ensures ':' !in t
    ensures |t| < |s| ==> s[|s| - |t| - 1] == ':'
  {
    if |s| == 0 || s[|s| - 1] == ':' then [] else AfterLastColon(s[..|s| - 1]) + [s[|s| - 1]]
  }

  /** Four non-empty runs of ASCII digits separated by dots: `\d+\.\d+\.\d+\.\d+`. */
  predicate DottedDigits(t: string) {
    var parts := Split(t, '.');
    |parts| == 4 && forall k | 0 <= k < 4 :: |parts[k]| > 0 && AllDigits(parts[k])
  }

  /** The group captured by `/::ffff:(\d+\.\d+\.\d+\.\d+)$/`, if the pattern matches.
    * The group holds no ':', so it is the text after the last colon. */
  function MappedIPv4(s: string): (r: Option<string>)
    ensures r.Some? ==> DottedDigits(r.value) && EndsWith(s, "::ffff:" + r.value)
  {
    var t := AfterLastColon(s);
    var head := s[..|s| - |t|];
    if DottedDigits(t) && EndsWith(head, "::ffff:") then
      EndsWithAppend(s, |s| - |t|, "::ffff:");
      Some(t)
    else None
  }

  /** When the part of `s` before position `i` ends in `p`, `s` ends in `p` and the rest. */
  lemma EndsWithAppend(s: string, i: nat, p: string)
    requires i <= |s| && EndsWith(s[..i], p)
    ensures EndsWith(s, p + s[i..])
  {
    assert s[i - |p|..] == s[..i][i - |p|..] + s[i..];
  }

  lemma DigitsAndDotsJoin(w: string, x: string, y: string, z: string)
    requires AllDigits(w) && AllDigits(x) && AllDigits(y) && AllDigits(z)
    ensures DigitsAndDots(w + "." + x + "." + y + "." + z)
  {
    DigitsAndDotsAppend(w, ".");
    DigitsAndDotsAppend(w + ".", x);
    DigitsAndDotsAppend(w + "." + x, ".");
    DigitsAndDotsAppend(w + "." + x + ".", y);
    DigitsAndDotsAppend(w + "." + x + "." + y, ".");
    DigitsAndDotsAppend(w + "." + x + "." + y + ".", z);
  }

  lemma DottedDigitsHaveNoColon(t: string)
    requires DottedDigits(t)
    ensures ':' !in t
  {
    JoinSplit(t, '.');
    var parts := Split(t, '.');
    assert parts == [parts[0], parts[1], parts[2], parts[3]];
    JoinFour(parts[0], parts[1], parts[2], parts[3]);
    DigitsAndDotsJoin(parts[0], parts[1], parts[2], parts[3]);
    assert DigitsAndDots(t);
  }

  lemma {:induction false} AfterLastColonOfSuffix(u: string, t: string)
    requires ':' !in t
    ensures AfterLastColon(u + [':'] + t) == t
    decreases |t|
  {
    var s := u + [':'] + t;
    if |t| > 0 {
      assert s[..|s| - 1] == u + [':'] + t[..|t| - 1];
      AfterLastColonOfSuffix(u, t[..|t| - 1]);
      assert t == t[..|t| - 1] + [t[|t| - 1]];
    }
  }

  /** The pattern matches every string that ends in "::ffff:" and a dotted-digit group. */
  lemma MappedIPv4Matches(p: string, t: string)
    requires DottedDigits(t)
    ensures MappedIPv4(p + "::ffff:" + t) == Some(t)
  {
    DottedDigitsHaveNoColon(t);
    var s := p + "::ffff:" + t;
    assert s == (p + "::ffff") + [':'] + t;
    AfterLastColonOfSuffix(p + "::ffff", t);
    assert s[..|s| - |t|] == p + "::ffff:";
  }

  /** `isPrivateIPv6`, on the ASCII-lower-cased address. */
  predicate IsPrivateIPv6(ip: string, parseOther: string -> Option<real>) {
    var lower := ToLower(ip);
    || lower == "::1" || lower == "::"
    || StartsWith(lower, "fc") || StartsWith(lower, "fd")
    || (StartsWith(lower, "fe") && |lower| > 2 && lower[2] in "89ab")
    || (MappedIPv4(lower).Some? && IsPrivateIPv4(MappedIPv4(lower).value, parseOther))
  }

  /** Loopback, unspecified, unique-local (fc00::/7) and link-local (fe80::/10) addresses are private. */
  lemma IPv6ReservedPrefixesArePrivate(ip: string, parseOther: string -> Option<real>)
    requires || ToLower(ip) == "::1" || ToLower(ip) == "::"
             || StartsWith(ToLower(ip), "fc") || StartsWith(ToLower(ip), "fd")
             || StartsWith(ToLower(ip), "fe8") || StartsWith(ToLower(ip), "fe9")
             || StartsWith(ToLower(ip), "fea") || StartsWith(ToLower(ip), "feb")
    ensures IsPrivateIPv6(ip, parseOther)
  {
    var lower := ToLower(ip);
    if StartsWith(lower, "fe8") || StartsWith(lower, "fe9") || StartsWith(lower, "fea") || StartsWith(lower, "feb") {
      LinkLocalPrefix(lower);
    }
  }

  lemma LinkLocalPrefix(s: string)
    requires StartsWith(s, "fe8") || StartsWith(s, "fe9") || StartsWith(s, "fea") || StartsWith(s, "feb")
    ensures StartsWith(s, "fe") && |s| > 2 && s[2] in "89ab"
  {
    assert s[..2] == s[..3][..2];
  }

  lemma MappedPrefixIsLower()
    ensures ToLower("::ffff:") == "::ffff:"
  {
    var p := "::ffff:";
    assert ToLower(p)[0] == p[0] && ToLower(p)[1] == p[1] && ToLower(p)[2] == p[2] && ToLower(p)[3] == p[3];
    assert ToLower(p)[4] == p[4] && ToLower(p)[5] == p[5] && ToLower(p)[6] == p[6];
  }

  /** A mapped address "::ffff:" + t is private exactly when t is, as an IPv4 address. */
  lemma MappedFollowsIPv4(t: string, parseOther: string -> Option<real>)
    requires DottedDigits(t) && DigitsAndDots(t)
    ensures ToLower("::ffff:" + t) == "::ffff:" + t
    ensures IsPrivateIPv6("::ffff:" + t, parseOther) <==> IsPrivateIPv4(t, parseOther)
  {
    var s := "::ffff:" + t;
    DigitsAndDotsAreLower(t);
    MappedPrefixIsLower();
    ToLowerAppend("::ffff:", t);
    assert ToLower(s) == s;
    MappedIPv4Matches("", t);
    assert "" + "::ffff:" + t == s;
    assert '.' in t;
    ColonStartIsNotReserved(s);
  }

  /** A string longer than three characters that starts with ':' is neither "::1",
    * "::" nor in the fc, fd or fe ranges. */
  lemma ColonStartIsNotReserved(s: string)
    requires |s| > 3 && s[0] == ':'
    ensures s != "::1" && s != "::"
    ensures !StartsWith(s, "fc") && !StartsWith(s, "fd") && !StartsWith(s, "fe")
  {
    assert s[..2][0] == ':';
  }

  /** An IPv4-mapped address ::ffff:a.b.c.d is private exactly when a.b.c.d is. */
  lemma MappedAddressFollowsIPv4(a: nat, b: nat, c: nat, d: nat, parseOther: string -> Option<real>)
    requires a <= 255 && b <= 255 && c <= 255 && d <= 255
    ensures IsPrivateIPv6("::ffff:" + DottedQuad(a, b, c, d), parseOther) <==> InPrivateBlock(Address(a, b, c, d))
  {
    QuadShape(a, b, c, d);
    MappedFollowsIPv4(DottedQuad(a, b, c, d), parseOther);
    IsPrivateIPv4OfDottedQuad(a, b, c, d, parseOther);
  }

  // ---------------------------------------------------------------------------
  // validateUrl
  // ---------------------------------------------------------------------------

  /** `stripBrackets`: "[h]" becomes "h"; anything else is kept. */
  function StripBrackets(h: string): (r: string)
    ensures r == h || h == "[" + r + "]"
  {
    if StartsWith(h, "[") && EndsWith(h, "]") then
      assert h[0] == '[' && h[|h| - 1] == ']';
      assert h == "[" + h[1..|h| - 1] + "]";
      h[1..|h| - 1]
    else h
  }

  /** `IPV4_RE`: four dot-separated runs of one to three ASCII digits. */
  predicate IsIPv4Literal(host: string) {
    var parts := Split(host, '.');
    |parts| == 4 && forall k | 0 <= k < 4 :: 1 <= |parts[k]| <= 3 && AllDigits(parts[k])
  }

  /** `validateUrl`: http or https, default or standard port, and a host that is not
    * localhost, 0.0.0.0, a private IPv4 literal or a private IPv6 literal. */
  function ValidateUrl(url: Url, parseOther: string -> Option<real>): (ok: bool)
    ensures ok ==> url.protocol == "http:" || url.protocol == "https:"
    ensures ok ==> url.port == "" || url.port == "80" || url.port == "443"
    ensures ok ==> var host := ToLower(StripBrackets(url.hostname));
      host != "localhost" && host != "0.0.0.0"
  {
    if url.protocol != "http:" && url.protocol != "https:" then false
    else if url.port != "" && url.port != "80" && url.port != "443" then false
    else
      var host := ToLower(StripBrackets(url.hostname));
      if host == "localhost" || host == "0.0.0.0" then false
      else if IsIPv4Literal(host) && IsPrivateIPv4(host, parseOther) then false
      else if ':' in host && IsPrivateIPv6(host, parseOther) then false
      else true
  }

  predicate WebScheme(url: Url) {
    (url.protocol == "http:" || url.protocol == "https:") && (url.port == "" || url.port == "80" || url.port == "443")
  }

  /** For an http(s) URL whose host is an IPv4 literal other than 0.0.0.0, the
    * guard's verdict is exactly the private-address test. */
  lemma ValidateUrlIPv4Literal(url: Url, parseOther: string -> Option<real>)
    requires WebScheme(url)
    requires var host := ToLower(StripBrackets(url.hostname));
      IsIPv4Literal(host) && ':' !in host && host != "localhost" && host != "0.0.0.0"
    ensures ValidateUrl(url, parseOther) <==> !IsPrivateIPv4(ToLower(StripBrackets(url.hostname)), parseOther)
  {
  }

  /** For an http(s) URL whose host is a dotted quad, the URL is accepted exactly
    * when the address is outside every private block. */
  lemma ValidateUrlDottedQuad(url: Url, a: nat, b: nat, c: nat, d: nat, parseOther: string -> Option<real>)
    requires WebScheme(url)
    requires a <= 255 && b <= 255 && c <= 255 && d <= 255
    requires url.hostname == DottedQuad(a, b, c, d)
    ensures ValidateUrl(url, parseOther) <==> !InPrivateBlock(Address(a, b, c, d))
  {
    var q := DottedQuad(a, b, c, d);
    QuadIsIPv4Literal(a, b, c, d);
    IsPrivateIPv4OfDottedQuad(a, b, c, d, parseOther);
    PrivatePrefixIsCidr(a, b, c, d);
    if q == "0.0.0.0" {
      ZeroQuad(a, b, c, d);
    } else {
      ValidateUrlIPv4Literal(url, parseOther);
    }
  }

  /** A dotted quad of octets matches `IPV4_RE` and is its own host name. */
  lemma QuadIsIPv4Literal(a: nat, b: nat, c: nat, d: nat)
    requires a <= 255 && b <= 255 && c <= 255 && d <= 255
    ensures var q := DottedQuad(a, b, c, d);
      IsIPv4Literal(q) && ':' !in q && StripBrackets(q) == q && ToLower(q) == q && q != "localhost"
  {
    var q := DottedQuad(a, b, c, d);
    QuadShape(a, b, c, d);
    DigitsAndDotsHost(q);
    SplitDottedQuad(a, b, c, d);
    NumeralOfOctet(a);
    NumeralOfOctet(b);
    NumeralOfOctet(c);
    NumeralOfOctet(d);
    ShortNumeralsAreIPv4Literal(q, NatToDecimal(a), NatToDecimal(b), NatToDecimal(c), NatToDecimal(d));
  }

  /** A non-empty string of digits and dots has no brackets, no colon and is not "localhost". */
  lemma DigitsAndDotsHost(q: string)
    requires |q| > 0 && DigitsAndDots(q)
    ensures ':' !in q && StripBrackets(q) == q && q != "localhost"
  {
    assert q[0] != '[' && q[0] != 'l';
  }

  lemma ShortNumeralsAreIPv4Literal(q: string, w: string, x: string, y: string, z: string)
    requires Split(q, '.') == [w, x, y, z]
    requires 1 <= |w| <= 3 && 1 <= |x| <= 3 && 1 <= |y| <= 3 && 1 <= |z| <= 3
    requires AllDigits(w) && AllDigits(x) && AllDigits(y) && AllDigits(z)
    ensures IsIPv4Literal(q)
  {
    var parts := Split(q, '.');
    assert parts[0] == w && parts[1] == x && parts[2] == y && parts[3] == z;
  }

  lemma ZeroQuad(a: nat, b: nat, c: nat, d: nat)
    requires DottedQuad(a, b, c, d) == "0.0.0.0"
    ensures a == 0
  {
    JoinFour("0", "0", "0", "0");
    SplitJoin(["0", "0", "0", "0"], '.');
    SplitDottedQuad(a, b, c, d);
    DecimalRoundTrip(a);
  }

  /** An octet's numeral has one to three digits. */
  lemma NumeralOfOctet(n: nat)
    requires n <= 255
    ensures 1 <= |NatToDecimal(n)| <= 3
  {
    if n >= 10 {
      assert |NatToDecimal(n / 10)| <= 2 by {
        if n / 10 >= 10 { assert n / 10 / 10 < 10; }
      }
    }
  }

  /** A host that is a private IPv6 literal is rejected. */
  lemma ValidateUrlRejectsPrivateIPv6(url: Url, parseOther: string -> Option<real>)
    requires var host := ToLower(StripBrackets(url.hostname)); ':' in host && IsPrivateIPv6(host, parseOther)
    ensures !ValidateUrl(url, parseOther)
  {
  }

  /** A host written `[::ffff:a.b.c.d]`, in dotted form, with a.b.c.d private is rejected. */
  lemma ValidateUrlRejectsMappedPrivate(url: Url, a: nat, b: nat, c: nat, d: nat, parseOther: string -> Option<real>)
    requires a <= 255 && b <= 255 && c <= 255 && d <= 255
    requires url.hostname == "[::ffff:" + DottedQuad(a, b, c, d) + "]"
    requires InPrivateBlock(Address(a, b, c, d))
    ensures !ValidateUrl(url, parseOther)
  {
    var inner := "::ffff:" + DottedQuad(a, b, c, d);
    assert url.hostname == "[" + inner + "]";
    assert StripBrackets(url.hostname) == inner;
    QuadShape(a, b, c, d);
    MappedFollowsIPv4(DottedQuad(a, b, c, d), parseOther);
    MappedAddressFollowsIPv4(a, b, c, d, parseOther);
    assert inner[0] == ':';
    ValidateUrlRejectsPrivateIPv6(url, parseOther);
  }

  // ---------------------------------------------------------------------------
  // The hexadecimal spelling of an IPv4-mapped address
  // ---------------------------------------------------------------------------

  // The WHATWG URL parser prints every IPv6 host as eight 16-bit pieces in
  // lower-case hex with the longest zero run compressed, so `[::ffff:127.0.0.1]`
  // reaches the guard as `[::ffff:7f00:1]`. The pattern of lib/ssrf.ts:31 only
  // knows the dotted spelling.

  predicate IsHexDigit(c: char) {
    '0' <= c <= '9' || 'a' <= c <= 'f'
  }

  predicate AllHex(s: string) {
    forall i | 0 <= i < |s| :: IsHexDigit(s[i])
  }

  function HexDigitChar(d: nat): (c: char)
    requires d < 16
    ensures IsHexDigit(c)
  {
    if d < 10 then ('0' as int + d) as char else ('a' as int + d - 10) as char
  }

  function HexDigitValue(c: char): (d: nat)
    requires IsHexDigit(c)
    ensures d < 16
  {
    if c <= '9' then c as int - '0' as int else c as int - 'a' as int + 10
  }

  /** One 16-bit piece as the URL serialiser prints it: lower-case hex, no leading zeros. */
  function HexPiece(n: nat): (s: string)
    ensures |s| >= 1 && AllHex(s)
  {
    if n < 16 then [HexDigitChar(n)] else HexPiece(n / 16) + [HexDigitChar(n % 16)]
  }

  /** The value of a string of hex digits. */
  function HexValue(s: string): nat
    requires AllHex(s)
  {
    if |s| == 0 then 0 else HexValue(s[..|s| - 1]) * 16 + HexDigitValue(s[|s| - 1])
  }

  /** Reading a printed piece gives back its value. */
  lemma {:induction false} HexRoundTrip(n: nat)
    ensures HexValue(HexPiece(n)) == n
  {
    if n >= 16 {
      HexRoundTrip(n / 16);
      var s := HexPiece(n);
      assert s[..|s| - 1] == HexPiece(n / 16);
      assert HexDigitValue(HexDigitChar(n % 16)) == n % 16;
    } else {
      assert HexDigitValue(HexDigitChar(n)) == n;
    }
  }

  /** A 16-bit piece prints in one to four digits. */
  lemma HexPieceLength(n: nat)
    requires n < 65536
    ensures |HexPiece(n)| <= 4
  {
    if n >= 16 {
      assert |HexPiece(n / 16)| <= 3 by {
        if n / 16 >= 16 {
          assert |HexPiece(n / 16 / 16)| <= 2 by {
            if n / 16 / 16 >= 16 { assert n / 16 / 16 / 16 < 16; }
          }
        }
      }
    }
  }

  /** Hex digits hold no colon, no dot and no capital letter. */
  lemma HexIsPlain(s: string)
    requires AllHex(s)
    ensures ':' !in s && '.' !in s && ToLower(s) == s
  {
    ToLowerKeepsLower(s);
  }

  /** The spelling of ::ffff:a.b.c.d that the URL parser produces. */
  function MappedHexSpelling(a: nat, b: nat, c: nat, d: nat): (s: string)
    ensures StartsWith(s, "::ffff:")
  {
    "::ffff:" + HexPiece(a * 256 + b) + ":" + HexPiece(c * 256 + d)
  }

  /** `[0-9a-f]{1,4}`. */
  predicate IsHexPiece(t: string) {
    1 <= |t| <= 4 && AllHex(t)
  }

  /** The two groups captured by `/::ffff:([0-9a-f]{1,4}):([0-9a-f]{1,4})$/`, if it matches. */
  function MappedHexGroups(s: string): (r: Option<(string, string)>)
    ensures r.Some? ==> IsHexPiece(r.value.0) && IsHexPiece(r.value.1)
  {
    var lo := AfterLastColon(s);
    if |lo| == |s| then None
    else
      var rest := s[..|s| - |lo| - 1];
      var hi := AfterLastColon(rest);
      if IsHexPiece(hi) && IsHexPiece(lo) && EndsWith(rest[..|rest| - |hi|], "::ffff:")
      then Some((hi, lo))
      else None
  }

  /** The IPv4 address that two 16-bit hex pieces spell. */
  function PiecesAddress(hi: string, lo: string): nat
    requires AllHex(hi) && AllHex(lo)
  {
    HexValue(hi) * 65536 + HexValue(lo)
  }

  lemma PiecesMakeAddress(a: nat, b: nat, c: nat, d: nat)
    ensures (a * 256 + b) * 65536 + (c * 256 + d) == Address(a, b, c, d)
  {
    assert (a * 256 + b) * 65536 == a * 256 * 65536 + b * 65536;
    assert a * 256 * 65536 == a * 16777216;
  }

  /** "::ffff:" + hi + ":" + lo for hex pieces has no dot and no capital letter and
    * starts with a colon. */
  lemma HexMappedIsPlain(hi: string, lo: string)
    requires AllHex(hi) && AllHex(lo)
    ensures var s := "::ffff:" + hi + ":" + lo;
      ToLower(s) == s && '.' !in s && |s| > 3 && s[0] == ':'
  {
    var s := "::ffff:" + hi + ":" + lo;
    forall k | 0 <= k < |s|
      ensures !('A' <= s[k] <= 'Z') && s[k] != '.'
    {
      if k >= 7 + |hi| + 1 {
        assert s[k] == lo[k - 8 - |hi|];
      } else if k >= 7 && k < 7 + |hi| {
        assert s[k] == hi[k - 7];
      }
    }
    ToLowerKeepsLower(s);
  }

  /** The hex pattern captures hi and lo from "::ffff:" + hi + ":" + lo. */
  lemma MappedHexOfPieces(hi: string, lo: string)
    requires IsHexPiece(hi) && IsHexPiece(lo)
    ensures MappedHexGroups("::ffff:" + hi + ":" + lo) == Some((hi, lo))
  {
    HexIsPlain(hi);
    HexIsPlain(lo);
    var u := "::ffff:" + hi;
    var s := u + [':'] + lo;
    assert "::ffff:" + hi + ":" + lo == s;
    AfterLastColonOfSuffix(u, lo);
    assert s[..|s| - |lo| - 1] == u;
    assert u == "::ffff" + [':'] + hi;
    AfterLastColonOfSuffix("::ffff", hi);
    assert u[..|u| - |hi|] == "::ffff:";
    EndsWithItself("::ffff:");
  }

  lemma EndsWithItself(p: string)
    ensures EndsWith(p, p)
  {
    assert p[|p| - |p|..] == p;
  }

  /** The dotted pattern never matches a text without a dot. */
  lemma DotlessIsNotDottedMapped(s: string)
    requires '.' !in s
    ensures MappedIPv4(s).None?
  {
    var t := AfterLastColon(s);
    assert '.' !in t by {
      assert forall k | 0 <= k < |t| :: t[k] == s[|s| - |t| + k];
    }
    assert Split(t, '.') == [t];
  }

  /** The hex spelling has no dot and no capital letter; the hex pattern decodes it to
    * a.b.c.d and the dotted pattern does not match it. */
  lemma MappedHexSpellingDecodes(a: nat, b: nat, c: nat, d: nat)
    requires a <= 255 && b <= 255 && c <= 255 && d <= 255
    ensures var s := MappedHexSpelling(a, b, c, d);
      && ToLower(s) == s && '.' !in s && |s| > 3 && s[0] == ':'
      && MappedHexGroups(s) == Some((HexPiece(a * 256 + b), HexPiece(c * 256 + d)))
      && PiecesAddress(HexPiece(a * 256 + b), HexPiece(c * 256 + d)) == Address(a, b, c, d)
      && MappedIPv4(s).None?
  {
    var hi, lo := HexPiece(a * 256 + b), HexPiece(c * 256 + d);
    HexPieceLength(a * 256 + b);
    HexPieceLength(c * 256 + d);
    HexMappedIsPlain(hi, lo);
    MappedHexOfPieces(hi, lo);
    DotlessIsNotDottedMapped("::ffff:" + hi + ":" + lo);
    HexRoundTrip(a * 256 + b);
    HexRoundTrip(c * 256 + d);
    PiecesMakeAddress(a, b, c, d);
  }

  /** The hex spelling passes `validateUrl` as written, whatever the address: the
    * dotted pattern does not match it and no other branch of `isPrivateIPv6` applies. */
  lemma HexMappedAcceptedAsWritten(url: Url, a: nat, b: nat, c: nat, d: nat, parseOther: string -> Option<real>)
    requires WebScheme(url)
    requires a <= 255 && b <= 255 && c <= 255 && d <= 255
    requires url.hostname == "[" + MappedHexSpelling(a, b, c, d) + "]"
    ensures ValidateUrl(url, parseOther)
  {
    var s := MappedHexSpelling(a, b, c, d);
    assert StripBrackets(url.hostname) == s;
    MappedHexSpellingDecodes(a, b, c, d);
    ColonStartIsNotReserved(s);
    assert Split(s, '.') == [s];
    assert ':' in s;
  }

  /** `http://[::ffff:127.0.0.1]/`, which the parser hands over as `[::ffff:7f00:1]`,
    * reaches loopback and is accepted. */
  lemma HexMappedLoopbackIsAccepted(parseOther: string -> Option<real>)
    ensures MappedHexSpelling(127, 0, 0, 1) == "::ffff:7f00:1"
    ensures InPrivateBlock(Address(127, 0, 0, 1))
    ensures ValidateUrl(Url("http:", "", "[::ffff:7f00:1]"), parseOther)
  {
    LoopbackHexSpelling();
    assert InCidr(Address(127, 0, 0, 1), PrivateBlocks[2]);
    var url := Url("http:", "", "[::ffff:7f00:1]");
    assert url.hostname == "[" + MappedHexSpelling(127, 0, 0, 1) + "]";
    HexMappedAcceptedAsWritten(url, 127, 0, 0, 1, parseOther);
  }

  lemma LoopbackHexSpelling()
    ensures MappedHexSpelling(127, 0, 0, 1) == "::ffff:7f00:1"
  {
    var hi, lo := HexPiece(127 * 256 + 0), HexPiece(0 * 256 + 1);
    assert hi == HexPiece(2032) + "0";
    assert HexPiece(2032) == HexPiece(127) + "0";
    assert HexPiece(127) == "7f";
    assert hi == "7f00";
    assert lo == "1";
    var s := "::ffff:" + hi + ":" + lo;
    assert |s| == 13;
    forall k | 0 <= k < 13
      ensures s[k] == "::ffff:7f00:1"[k]
    {
      if 7 <= k < 11 { assert s[k] == hi[k - 7]; }
    }
  }

  /** `isPrivateIPv6` as evidently intended: an IPv4-mapped address is also decoded
    * when it is spelled in hex. */
  predicate IsPrivateIPv6Intended(ip: string, parseOther: string -> Option<real>) {
    var lower := ToLower(ip);
    || IsPrivateIPv6(ip, parseOther)
    || (var g := MappedHexGroups(lower); g.Some? && InPrivateBlock(PiecesAddress(g.value.0, g.value.1)))
  }

  /** In the intended reading, ::ffff:a.b.c.d is private exactly when a.b.c.d is, in
    * the hex spelling and in the dotted one. */
  lemma MappedHexFollowsIPv4(a: nat, b: nat, c: nat, d: nat, parseOther: string -> Option<real>)
    requires a <= 255 && b <= 255 && c <= 255 && d <= 255
    ensures IsPrivateIPv6Intended(MappedHexSpelling(a, b, c, d), parseOther) <==> InPrivateBlock(Address(a, b, c, d))
    ensures IsPrivateIPv6Intended("::ffff:" + DottedQuad(a, b, c, d), parseOther) <==> InPrivateBlock(Address(a, b, c, d))
  {
    var s := MappedHexSpelling(a, b, c, d);
    MappedHexSpellingDecodes(a, b, c, d);
    ColonStartIsNotReserved(s);
    QuadShape(a, b, c, d);
    MappedFollowsIPv4(DottedQuad(a, b, c, d), parseOther);
    MappedAddressFollowsIPv4(a, b, c, d, parseOther);
    DottedHasNoHexMapping(a, b, c, d);
  }

  /** The hex pattern does not match the dotted spelling. */
  lemma DottedHasNoHexMapping(a: nat, b: nat, c: nat, d: nat)
    requires a <= 255 && b <= 255 && c <= 255 && d <= 255
    ensures MappedHexGroups("::ffff:" + DottedQuad(a, b, c, d)).None?
  {
    var q := DottedQuad(a, b, c, d);
    QuadShape(a, b, c, d);
    DottedDigitsHaveNoColon(q);
    DottedIsNotHex(q);
  }

  /** After "::ffff:", a colon-free text with a dot is not a hex piece. */
  lemma DottedIsNotHex(q: string)
    requires ':' !in q && '.' in q
    ensures MappedHexGroups("::ffff:" + q).None?
  {
    var s := "::ffff:" + q;
    assert s == "::ffff" + [':'] + q;
    AfterLastColonOfSuffix("::ffff", q);
    assert !IsHexPiece(q) by {
      var i :| 0 <= i < |q| && q[i] == '.';
      assert !IsHexDigit(q[i]);
    }
    UnmappedWithoutHexTail(s);
  }

  /** The hex pattern fails when the text after the last colon is no hex piece. */
  lemma UnmappedWithoutHexTail(s: string)
    requires !IsHexPiece(AfterLastColon(s))
    ensures MappedHexGroups(s).None?
  {
  }

  /** `validateUrl` with the intended `isPrivateIPv6`: everything the source rejects,
    * and IPv4-mapped private addresses in the hex spelling too. */
  function ValidateUrlIntended(url: Url, parseOther: string -> Option<real>): (ok: bool)
    ensures ok ==> ValidateUrl(url, parseOther)
  {
    var host := ToLower(StripBrackets(url.hostname));
    ValidateUrl(url, parseOther) && !(':' in host && IsPrivateIPv6Intended(host, parseOther))
  }

  /** With the intended check, a URL whose host is ::ffff:a.b.c.d in the parser's hex
    * spelling is accepted exactly when a.b.c.d is outside every private block. */
  lemma ValidateUrlIntendedOnHexMapped(url: Url, a: nat, b: nat, c: nat, d: nat, parseOther: string -> Option<real>)
    requires WebScheme(url)
    requires a <= 255 && b <= 255 && c <= 255 && d <= 255
    requires url.hostname == "[" + MappedHexSpelling(a, b, c, d) + "]"
    ensures ValidateUrlIntended(url, parseOther) <==> !InPrivateBlock(Address(a, b, c, d))
  {
    var s := MappedHexSpelling(a, b, c, d);
    assert StripBrackets(url.hostname) == s;
    HexMappedAcceptedAsWritten(url, a, b, c, d, parseOther);
    MappedHexSpellingDecodes(a, b, c, d);
    MappedHexFollowsIPv4(a, b, c, d, parseOther);
    assert ':' in s;
  }
}
