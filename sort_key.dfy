/**
 * Fractional sort keys over the base62 alphabet `0-9A-Za-z`: `generateKeyBetween`
 * returns a key meant to sort strictly between two neighbours (either of which may
 * be absent). Keys are compared as JavaScript compares strings, character by
 * character (`LexLess`).
 */
module SortKey {
  import opened Wrappers

  /** `BASE62_MID`, the character at index 62 / 2 = 31. */
  const Mid: char := 'V'

  predicate IsBase62(c: char) {
    ('0' <= c <= '9') || ('A' <= c <= 'Z') || ('a' <= c <= 'z')
  }

  predicate AllBase62(s: string) {
    forall k :: 0 <= k < |s| ==> IsBase62(s[k])
  }

  /** `BASE62[d]` for the alphabet "0123456789ABCDEFGHIJKLMNOPQRSTUVWXYZabcdefghijklmnopqrstuvwxyz",
    * which lists its 62 characters in ascending order. */
  function Digit(d: nat): (c: char)
    requires d < 62
    ensures IsBase62(c)
  {
    if d < 10 then ('0' as int + d) as char
    else if d < 36 then ('A' as int + d - 10) as char
    else ('a' as int + d - 36) as char
  }

  /** `base62Index`: the position in the alphabet, or that of 'U' (30) for any other character. */
  function Base62Index(c: char): (d: nat)
    ensures d < 62
    ensures IsBase62(c) ==> Digit(d) == c
    ensures !IsBase62(c) ==> d == 30 && Digit(d) == 'U'
  {
    if '0' <= c <= '9' then c as int - '0' as int
    else if 'A' <= c <= 'Z' then c as int - 'A' as int + 10
    else if 'a' <= c <= 'z' then c as int - 'a' as int + 36
    else 30
  }

  /** Digits of the alphabet are in character order. */
  lemma DigitMonotone(d1: nat, d2: nat)
    requires d1 < d2 < 62
    ensures Digit(d1) < Digit(d2)
  {
  }

  lemma DigitInjective(d1: nat, d2: nat)
    requires d1 < 62 && d2 < 62 && Digit(d1) == Digit(d2)
    ensures d1 == d2
  {
    if d1 < d2 { DigitMonotone(d1, d2); }
    if d2 < d1 { DigitMonotone(d2, d1); }
  }

  lemma IndexMonotone(c1: char, c2: char)
    requires IsBase62(c1) && IsBase62(c2) && c1 < c2
    ensures Base62Index(c1) < Base62Index(c2)
  {
    var d1, d2 := Base62Index(c1), Base62Index(c2);
    if d2 < d1 { DigitMonotone(d2, d1); }
  }

  /** JavaScript's `a < b` on strings. */
  predicate LexLess(a: string, b: string)
    decreases |a|
  {
    |b| > 0 && (|a| == 0 || a[0] < b[0] || (a[0] == b[0] && LexLess(a[1..], b[1..])))
  }

  lemma {:induction false} LexLessIrreflexive(a: string)
    ensures !LexLess(a, a)
    decreases |a|
  {
    if |a| > 0 { LexLessIrreflexive(a[1..]); }
  }

  lemma {:induction false} LexLessTransitive(a: string, b: string, c: string)
    requires LexLess(a, b) && LexLess(b, c)
    ensures LexLess(a, c)
    decreases |a|
  {
    if |a| > 0 && a[0] == b[0] && b[0] == c[0] {
      LexLessTransitive(a[1..], b[1..], c[1..]);
    }
  }

  /** A common prefix does not change the order. */
  lemma {:induction false} LexLessPrefix(p: string, x: string, y: string)
    ensures LexLess(p + x, p + y) <==> LexLess(x, y)
    decreases |p|
  {
    if |p| > 0 {
      assert (p + x)[1..] == p[1..] + x;
      assert (p + y)[1..] == p[1..] + y;
      LexLessPrefix(p[1..], x, y);
    } else {
      assert p + x == x && p + y == y;
    }
  }

  /** A proper extension sorts after the string it extends. */
  lemma {:induction false} LexLessExtension(a: string, x: string)
    requires |x| > 0
    ensures LexLess(a, a + x)
    decreases |a|
  {
    if |a| > 0 {
      assert (a + x)[1..] == a[1..] + x;
      LexLessExtension(a[1..], x);
    }
  }

  /** A string is falsy in JavaScript when it is null or empty. */
  predicate Falsy(s: Option<string>) {
    s.None? || s.value == ""
  }

  /** The digit the loop reads from `left` at its position: 0 past the end. */
  function LeftDigit(left: string): nat {
    if |left| > 0 then Base62Index(left[0]) else 0
  }

  /** The digit the loop reads from `right` at its position: 61 past the end
    * (also when `right` is empty). */
  function RightDigit(right: string): nat {
    if |right| > 0 then Base62Index(right[0]) else 61
  }

  function Tail(s: string): string {
    if |s| > 0 then s[1..] else s
  }

  /** What the loop of `generateKeyBetween` appends to its prefix from the current
    * position on, where `left` and `right` are what remains of the two bounds. */
  function Scan(left: string, right: string): (r: string)
    ensures |r| >= 1
    decreases |left| + |right|
  {
    var l, r := LeftDigit(left), RightDigit(right);
    if l == r then [Digit(l)] + Scan(Tail(left), Tail(right))
    else if r - l > 1 then [Digit((l + r) / 2)]
    else [Digit(l), Mid]
  }

  /** What the loop appends is made of base62 digits and never ends in '0'. */
  lemma {:induction false} ScanShape(left: string, right: string)
    ensures AllBase62(Scan(left, right)) && Scan(left, right)[|Scan(left, right)| - 1] != '0'
    decreases |left| + |right|
  {
    var l, r := LeftDigit(left), RightDigit(right);
    if l == r {
      ScanShape(Tail(left), Tail(right));
      var rest := Scan(Tail(left), Tail(right));
      assert Scan(left, right) == [Digit(l)] + rest;
    } else if r > l + 1 {
      assert (l + r) / 2 > 0;
    }
  }

  /** `generateKeyBetween(a, b)`, as a function of its arguments. */
  function KeyBetween(a: Option<string>, b: Option<string>): (r: string)
    ensures |r| >= 1 && r[|r| - 1] != '0'
    ensures AllBase62(a.GetOr("")) ==> AllBase62(r)
  {
    if Falsy(a) && Falsy(b) then [Mid]
    else
      var left, right := a.GetOr(""), b.GetOr("");
      if |right| > 0 && !LexLess(left, right) then left + [Mid]
      else ScanShape(left, right); Scan(left, right)
  }

  /** The remainder of `s` from position `i`, empty past its end. */
  function Drop(s: string, i: nat): string {
    if i <= |s| then s[i..] else []
  }

  lemma DropNext(s: string, i: nat)
    ensures Tail(Drop(s, i)) == Drop(s, i + 1)
    ensures |Drop(s, i)| > 0 ==> Drop(s, i)[0] == s[i]
  {
  }

  /** `generateKeyBetween`: the two early returns, then the loop. */
  method GenerateKeyBetween(a: Option<string>, b: Option<string>) returns (key: string)
    ensures key == KeyBetween(a, b)
  {
    if Falsy(a) && Falsy(b) {
      return [Mid];
    }
    var left, right := a.GetOr(""), b.GetOr("");
    if |right| > 0 && !LexLess(left, right) {
      return left + [Mid];
    }
    key := ScanLoop(left, right);
  }

  /** The `while (true)` loop of `generateKeyBetween`, advancing `i` and growing `prefix`. */
  method ScanLoop(left: string, right: string) returns (key: string)
    ensures key == Scan(left, right)
  {
    var prefix := "";
    var i: nat := 0;
    var n := if |left| > |right| then |left| else |right|;
    assert Drop(left, 0) == left && Drop(right, 0) == right;
    assert prefix + Scan(Drop(left, i), Drop(right, i)) == Scan(left, right);
    while true
      invariant i <= n
      invariant Scan(left, right) == prefix + Scan(Drop(left, i), Drop(right, i))
      decreases n - i
    {
      var leftDigit, rightDigit := ReadDigits(left, right, i);
      if leftDigit == rightDigit {
        var extended := prefix + [Digit(leftDigit)];
        AppendAssoc(prefix, [Digit(leftDigit)], Scan(Drop(left, i + 1), Drop(right, i + 1)));
        prefix := extended;
        i := i + 1;
        continue;
      }
      if rightDigit > leftDigit + 1 {
        var mid := (leftDigit + rightDigit) / 2;
        return prefix + [Digit(mid)];
      }
      return prefix + [Digit(leftDigit), Mid];
    }
  }

  /** The two digits one turn of the loop reads at position `i`, and what they
    * decide about `Scan` from there on. */
  method ReadDigits(left: string, right: string, i: nat) returns (leftDigit: nat, rightDigit: nat)
    ensures leftDigit < 62 && rightDigit < 62
    ensures leftDigit == rightDigit ==> i < |left| || i < |right|
    ensures leftDigit == rightDigit ==>
      Scan(Drop(left, i), Drop(right, i)) == [Digit(leftDigit)] + Scan(Drop(left, i + 1), Drop(right, i + 1))
    ensures leftDigit != rightDigit && rightDigit - leftDigit > 1 ==>
      Scan(Drop(left, i), Drop(right, i)) == [Digit((leftDigit + rightDigit) / 2)]
    ensures leftDigit != rightDigit && rightDigit - leftDigit <= 1 ==>
      Scan(Drop(left, i), Drop(right, i)) == [Digit(leftDigit), Mid]
  {
    leftDigit := if i < |left| then Base62Index(left[i]) else 0;
    rightDigit := if |right| > 0 then (if i < |right| then Base62Index(right[i]) else 61) else 61;
    ScanStep(left, right, i, leftDigit, rightDigit);
  }

  lemma AppendAssoc(a: string, b: string, c: string)
    ensures a + (b + c) == (a + b) + c
  {
  }

  /** One turn of the loop at position `i`, stated on `Scan`: `ld` and `rd` are
    * the digits the loop reads there. */
  lemma ScanStep(left: string, right: string, i: nat, ld: nat, rd: nat)
    requires ld == if i < |left| then Base62Index(left[i]) else 0
    requires rd == if i < |right| then Base62Index(right[i]) else 61
    ensures ld < 62 && rd < 62
    ensures ld == rd ==> i < |left| || i < |right|
    ensures ld == rd ==>
      Scan(Drop(left, i), Drop(right, i)) == [Digit(ld)] + Scan(Drop(left, i + 1), Drop(right, i + 1))
    ensures ld != rd && rd - ld > 1 ==> Scan(Drop(left, i), Drop(right, i)) == [Digit((ld + rd) / 2)]
    ensures ld != rd && rd - ld <= 1 ==> Scan(Drop(left, i), Drop(right, i)) == [Digit(ld), Mid]
  {
    DropNext(left, i);
    DropNext(right, i);
    assert LeftDigit(Drop(left, i)) == ld && RightDigit(Drop(right, i)) == rd;
  }

  /** Both bounds absent or empty: the middle character. */
  lemma NoBoundsGivesMid(a: Option<string>, b: Option<string>)
    requires Falsy(a) && Falsy(b)
    ensures KeyBetween(a, b) == "V"
  {
  }

  /** A non-empty right bound that does not sort after the left bound: the left bound plus 'V'. */
  lemma OutOfOrderBoundsAppendMid(left: string, right: string)
    requires |right| > 0 && !LexLess(left, right)
    ensures KeyBetween(Some(left), Some(right)) == left + "V"
  {
  }

  /** Digits more than one apart at the first position where the bounds differ:
    * the common prefix followed by the digit half-way between. */
  lemma {:induction false} WideGapTakesMidpoint(p: string, left: string, right: string)
    requires AllBase62(p) && |left| > 0 && |right| > 0
    requires RightDigit(right) - LeftDigit(left) > 1
    ensures Scan(p + left, p + right) == p + [Digit((LeftDigit(left) + RightDigit(right)) / 2)]
    decreases |p|
  {
    if |p| > 0 {
      assert Base62Index(p[0]) == LeftDigit(p + left) == RightDigit(p + right);
      assert Tail(p + left) == p[1..] + left;
      assert Tail(p + right) == p[1..] + right;
      WideGapTakesMidpoint(p[1..], left, right);
      assert [p[0]] + p[1..] == p;
    } else {
      assert p + left == left && p + right == right;
    }
  }

  /** A key before an existing key: with no left bound, the result sorts before
    * `right` whenever `right` is a base62 key that does not end in '0'. */
  lemma {:induction false} ScanBelowRight(right: string)
    requires |right| > 0 && AllBase62(right) && right[|right| - 1] != '0'
    ensures LexLess(Scan("", right), right)
    decreases |right|
  {
    var rd := RightDigit(right);
    assert Digit(rd) == right[0];
    if rd == 0 {
      assert |right| > 1;
      ScanBelowRight(right[1..]);
    } else if rd > 1 {
      DigitMonotone(rd / 2, rd);
    } else {
      DigitMonotone(0, 1);
    }
  }

  /** The keys obtained by prepending `n` times, newest first, as the source's smoke script builds them. */
  function Prepends(n: nat): (keys: seq<string>)
    ensures |keys| == n
  {
    if n == 0 then []
    else
      var older := Prepends(n - 1);
      [KeyBetween(None, if |older| > 0 then Some(older[0]) else None)] + older
  }

  predicate KeyShape(k: string) {
    |k| > 0 && AllBase62(k) && k[|k| - 1] != '0'
  }

  /** Each key sorts before the next one, and every key is a base62 key not ending in '0'. */
  lemma {:induction false} PrependsAscending(n: nat)
    ensures forall k :: 0 <= k < n ==> KeyShape(Prepends(n)[k])
    ensures forall k :: 0 < k < n ==> LexLess(Prepends(n)[k - 1], Prepends(n)[k])
  {
    if n > 0 {
      PrependsAscending(n - 1);
      var older := Prepends(n - 1);
      if |older| > 0 {
        assert KeyShape(older[0]);
        assert LexLess("", older[0]);
        ScanBelowRight(older[0]);
      }
    }
  }

  /** Prepended keys are strictly increasing, hence pairwise distinct. */
  lemma PrependsStrictlyIncreasing(n: nat, i: nat, j: nat)
    requires i < j < n
    ensures LexLess(Prepends(n)[i], Prepends(n)[j])
    ensures Prepends(n)[i] != Prepends(n)[j]
    decreases j - i
  {
    PrependsAscending(n);
    var keys := Prepends(n);
    if i + 1 < j {
      PrependsStrictlyIncreasing(n, i + 1, j);
      LexLessTransitive(keys[i], keys[i + 1], keys[j]);
    }
    LexLessIrreflexive(keys[i]);
  }

  /** The adjacent-digit case, as written, can produce a key that sorts BEFORE
    * the left bound: after "yz" it gives "yV", and after "yV" it gives "yV" again. */
  lemma AppendAfterAdjacentCounterexample()
    ensures KeyBetween(Some("yz"), None) == "yV" && LexLess("yV", "yz")
    ensures KeyBetween(Some("yV"), None) == "yV"
  {
    assert Base62Index('y') == 60;
    var s1 := Scan("yz", "");
    assert s1 == [Digit(60), Mid];
    assert Digit(60) == 'y';
    var s2 := Scan("yV", "");
    assert s2 == [Digit(60), Mid];
  }

  /** The loop's continuation with the adjacent-digit case corrected: after taking
    * the left digit, continue with a key after the rest of the left bound. */
  function ScanFixed(left: string, right: string): (r: string)
    ensures |r| >= 1 && AllBase62(r) && r[|r| - 1] != '0'
    decreases |left| + |right|
  {
    var l, r := LeftDigit(left), RightDigit(right);
    if l == r then [Digit(l)] + ScanFixed(Tail(left), Tail(right))
    else if r - l > 1 then [Digit((l + r) / 2)]
    else [Digit(l)] + ScanFixed(Tail(left), "")
  }

  /** `generateKeyBetween` with the adjacent-digit case corrected. */
  function KeyBetweenFixed(a: Option<string>, b: Option<string>): (r: string)
    ensures |r| >= 1 && r[|r| - 1] != '0'
    ensures AllBase62(a.GetOr("")) ==> AllBase62(r)
  {
    if Falsy(a) && Falsy(b) then [Mid]
    else
      var left, right := a.GetOr(""), b.GetOr("");
      if |right| > 0 && !LexLess(left, right) then left + [Mid]
      else ScanFixed(left, right)
  }

  /** Well-formed bounds of the corrected continuation: base62, and a right bound
    * that is either absent or sorts after the left bound and does not end in '0'. */
  predicate WellFormedBounds(left: string, right: string) {
    && AllBase62(left) && AllBase62(right)
    && (right == [] || (LexLess(left, right) && right[|right| - 1] != '0'))
  }

  /** Under well-formed bounds the left digit never exceeds the right one. */
  lemma FirstDigitsOrdered(left: string, right: string)
    requires WellFormedBounds(left, right)
    ensures LeftDigit(left) <= RightDigit(right)
  {
    if |left| > 0 && |right| > 0 && left[0] < right[0] {
      IndexMonotone(left[0], right[0]);
    }
  }

  /** The corrected continuation sorts strictly between well-formed bounds. */
  lemma {:induction false} ScanFixedBetween(left: string, right: string)
    requires WellFormedBounds(left, right)
    ensures LexLess(left, ScanFixed(left, right))
    ensures right != [] ==> LexLess(ScanFixed(left, right), right)
    decreases |left| + |right|, 1
  {
    var l, r := LeftDigit(left), RightDigit(right);
    FirstDigitsOrdered(left, right);
    if l == r {
      ScanFixedEqual(left, right);
    } else if r - l > 1 {
      ScanFixedWide(left, right);
    } else {
      ScanFixedAdjacent(left, right);
    }
  }

  /** Equal digits: the digit is kept and the rest of both bounds is scanned. */
  lemma {:induction false} ScanFixedEqual(left: string, right: string)
    requires WellFormedBounds(left, right) && LeftDigit(left) == RightDigit(right)
    ensures LexLess(left, ScanFixed(left, right))
    ensures right != [] ==> LexLess(ScanFixed(left, right), right)
    decreases |left| + |right|, 0
  {
    var d := LeftDigit(left);
    var rest := ScanFixed(Tail(left), Tail(right));
    var out := ScanFixed(left, right);
    assert out == [Digit(d)] + rest;
    assert out[0] == Digit(d) && out[1..] == rest;
    if |left| > 0 { assert Digit(d) == left[0]; }
    if |right| > 0 {
      assert Digit(d) == right[0];
      if |left| > 0 {
        assert LexLess(left[1..], right[1..]);
      }
      assert |right| > 1;
    }
    ScanFixedBetween(Tail(left), Tail(right));
  }

  /** Digits more than one apart: the digit half-way between sorts between the bounds. */
  lemma ScanFixedWide(left: string, right: string)
    requires WellFormedBounds(left, right) && RightDigit(right) - LeftDigit(left) > 1
    ensures LexLess(left, ScanFixed(left, right))
    ensures right != [] ==> LexLess(ScanFixed(left, right), right)
  {
    var l, r := LeftDigit(left), RightDigit(right);
    var m := (l + r) / 2;
    assert ScanFixed(left, right) == [Digit(m)];
    if |left| > 0 {
      assert Digit(l) == left[0];
      DigitMonotone(l, m);
    }
    if |right| > 0 {
      assert Digit(r) == right[0];
      DigitMonotone(m, r);
    }
  }

  /** Adjacent digits: the left digit followed by a key after the rest of the left bound. */
  lemma {:induction false} ScanFixedAdjacent(left: string, right: string)
    requires WellFormedBounds(left, right) && RightDigit(right) == LeftDigit(left) + 1
    ensures LexLess(left, ScanFixed(left, right))
    ensures right != [] ==> LexLess(ScanFixed(left, right), right)
    decreases |left| + |right|, 0
  {
    var l, r := LeftDigit(left), RightDigit(right);
    var rest := ScanFixed(Tail(left), "");
    var out := ScanFixed(left, right);
    assert out == [Digit(l)] + rest;
    assert out[0] == Digit(l) && out[1..] == rest;
    if |right| > 0 {
      assert Digit(r) == right[0];
      DigitMonotone(l, r);
      assert LexLess(out, right);
    }
    assert WellFormedBounds(Tail(left), "") by {
      assert forall k :: 0 <= k < |Tail(left)| ==> Tail(left)[k] == left[k + (if |left| > 0 then 1 else 0)];
    }
    ScanFixedBetween(Tail(left), "");
    if |left| > 0 {
      assert Digit(l) == left[0];
      assert left[1..] == Tail(left);
      assert LexLess(left, out);
    }
  }

  /** The corrected key sorts strictly after a base62 left bound and strictly
    * before a right bound that sorts after it and does not end in '0' (no key
    * at all fits below a right bound `x + "0"` and above `x`). */
  lemma KeyBetweenFixedOrdered(a: Option<string>, b: Option<string>)
    requires AllBase62(a.GetOr("")) && AllBase62(b.GetOr(""))
    requires !Falsy(b) ==> LexLess(a.GetOr(""), b.value) && b.value[|b.value| - 1] != '0'
    ensures LexLess(a.GetOr(""), KeyBetweenFixed(a, b))
    ensures !Falsy(b) ==> LexLess(KeyBetweenFixed(a, b), b.value)
  {
    if !(Falsy(a) && Falsy(b)) {
      ScanFixedBetween(a.GetOr(""), b.GetOr(""));
    }
  }

  /** The corrected version still yields "yz" a successor after it. */
  lemma FixedAppendAfterAdjacent()
    ensures KeyBetweenFixed(Some("yz"), None) == "yzU"
  {
    assert Base62Index('y') == 60;
    assert Base62Index('z') == 61;
    assert Digit(60) == 'y' && Digit(61) == 'z' && Digit(30) == 'U';
    assert "yz"[1..] == "z";
    assert "z"[1..] == "";
    assert ScanFixed("", "") == "U";
    assert ScanFixed("z", "") == "zU";
  }
}
