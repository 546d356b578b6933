/** The string operations the handlers apply to form input: Python's
    `str.strip()`, `str.lower()` and the decimal rendering of an id inside an
    f-string. */
module Text {

  /** Python's `str.isspace()`: the characters `strip()` removes by default. */
  predicate IsSpace(c: char) {
    || c == ' '
    || '\t' <= c <= '\r'
    || '\U{1c}' <= c <= '\U{1f}'
    || c == '\U{85}' || c == '\U{a0}' || c == '\U{1680}'
    || '\U{2000}' <= c <= '\U{200a}'
    || c == '\U{2028}' || c == '\U{2029}' || c == '\U{202f}' || c == '\U{205f}' || c == '\U{3000}'
  }

  /** Neither end of `s` is whitespace. */
  predicate IsStripped(s: string) {
    s == [] || (!IsSpace(s[0]) && !IsSpace(s[|s| - 1]))
  }

  /** Every character of `s` is whitespace. */
  predicate AllSpace(s: string) {
    forall i :: 0 <= i < |s| ==> IsSpace(s[i])
  }

  /** Joining two runs of whitespace gives a run of whitespace. */
  lemma AllSpaceConcat(a: string, b: string)
    requires AllSpace(a) && AllSpace(b)
    ensures AllSpace(a + b)
  {
    assert forall i :: 0 <= i < |a + b| ==> (a + b)[i] == if i < |a| then a[i] else b[i - |a|];
  }

  /** `s.lstrip()`: drops leading whitespace. */
  function TrimStart(s: string): (r: string)
    ensures |r| <= |s|
  {
    if s != [] && IsSpace(s[0]) then TrimStart(s[1..]) else s
  }

  /** What `TrimStart` drops is a run of whitespace at the front of `s`. */
  lemma {:induction false} TrimStartDropsLeadingSpace(s: string) returns (lead: string)
    ensures s == lead + TrimStart(s) && AllSpace(lead)
  {
    if s != [] && IsSpace(s[0]) {
      var tail := s[1..];
      var rest := TrimStartDropsLeadingSpace(tail);
      lead := [s[0]] + rest;
      assert AllSpace(lead) by {
        AllSpaceConcat([s[0]], rest);
      }
      assert s == lead + TrimStart(s) by {
        assert TrimStart(s) == TrimStart(tail);
        assert s == [s[0]] + tail;
      }
    } else {
      lead := [];
    }
  }

  /** What `TrimStart` keeps does not start with whitespace. */
  lemma {:induction false} TrimStartEdge(s: string)
    ensures TrimStart(s) == [] || !IsSpace(TrimStart(s)[0])
  {
    if s != [] && IsSpace(s[0]) {
      TrimStartEdge(s[1..]);
    }
  }

  /** `s.rstrip()`: drops trailing whitespace. */
  function TrimEnd(s: string): (r: string)
    ensures |r| <= |s|
  {
    if s != [] && IsSpace(s[|s| - 1]) then TrimEnd(s[..|s| - 1]) else s
  }

  /** What `TrimEnd` drops is a run of whitespace at the back of `s`. */
  lemma {:induction false} TrimEndDropsTrailingSpace(s: string) returns (trail: string)
    ensures s == TrimEnd(s) + trail && AllSpace(trail)
  {
    if s != [] && IsSpace(s[|s| - 1]) {
      var init, last := s[..|s| - 1], [s[|s| - 1]];
      var rest := TrimEndDropsTrailingSpace(init);
      AllSpaceConcat(rest, last);
      trail := rest + last;
      assert TrimEnd(s) == TrimEnd(init);
      calc {
        s;
        init + last;
        (TrimEnd(init) + rest) + last;
        TrimEnd(s) + trail;
      }
    } else {
      trail := [];
    }
  }

  /** What `TrimEnd` keeps does not end with whitespace, and starts where `s` starts. */
  lemma {:induction false} TrimEndEdge(s: string)
    ensures var r := TrimEnd(s);
            r == [] || (!IsSpace(r[|r| - 1]) && r[0] == s[0])
  {
    if s != [] && IsSpace(s[|s| - 1]) {
      TrimEndEdge(s[..|s| - 1]);
    }
  }

  /** `s.strip()`: no whitespace at either end, and a string already
      stripped is returned unchanged. */
  function Strip(s: string): (r: string)
    ensures IsStripped(r)
    ensures IsStripped(s) ==> r == s
  {
    TrimStartEdge(s);
    TrimEndEdge(TrimStart(s));
    TrimEnd(TrimStart(s))
  }

  /** `strip()` removes whitespace at the two ends and nothing else: `s` is
      its result with a run of whitespace before and a run after. */
  lemma StripRemovesOnlyOuterSpace(s: string) returns (lead: string, trail: string)
    ensures s == lead + Strip(s) + trail
    ensures AllSpace(lead) && AllSpace(trail)
  {
    lead := TrimStartDropsLeadingSpace(s);
    trail := TrimEndDropsTrailingSpace(TrimStart(s));
  }

  /** `c.lower()` for the ASCII capitals; every other character is left as it is. */
  function LowerChar(c: char): char {
    if 'A' <= c <= 'Z' then (c as int - 'A' as int + 'a' as int) as char else c
  }

  predicate IsUpper(c: char) {
    'A' <= c <= 'Z'
  }

  /** `s.lower()`: the same characters with every capital replaced by its small letter. */
  function Lower(s: string): (r: string)
    ensures |r| == |s|
    ensures forall i :: 0 <= i < |r| ==> !IsUpper(r[i])
    ensures forall i :: 0 <= i < |s| && !IsUpper(s[i]) ==> r[i] == s[i]
    ensures forall i :: 0 <= i < |s| && IsUpper(s[i]) ==> r[i] as int == s[i] as int + 32
  {
    seq(|s|, i requires 0 <= i < |s| => LowerChar(s[i]))
  }

  /** What `.strip().lower()` can return: no surrounding whitespace and no capitals. */
  predicate IsNormalisedEmail(e: string) {
    IsStripped(e) && forall i :: 0 <= i < |e| ==> !IsUpper(e[i])
  }

  /** `email.strip().lower()`, applied to every email before it is stored or looked up. */
  function NormaliseEmail(e: string): (r: string)
    ensures IsNormalisedEmail(r)
    ensures IsNormalisedEmail(e) ==> r == e
  {
    var t := Strip(e);
    var r := Lower(t);
    assert forall i :: 0 <= i < |t| ==> (IsSpace(r[i]) <==> IsSpace(t[i]));
    if IsNormalisedEmail(e) then
      assert t == e;
      assert r == e;
      r
    else r
  }

  /** Whitespace in front of `s` is all `lstrip()` sees of it. */
  lemma {:induction false} TrimStartSkipsSpace(lead: string, s: string)
    requires AllSpace(lead)
    ensures TrimStart(lead + s) == TrimStart(s)
  {
    if lead == [] {
      assert lead + s == s;
    } else {
      assert (lead + s)[0] == lead[0];
      assert (lead + s)[1..] == lead[1..] + s;
      TrimStartSkipsSpace(lead[1..], s);
    }
  }

  /** Whitespace after `s` is all `rstrip()` sees of it. */
  lemma {:induction false} TrimEndSkipsSpace(s: string, trail: string)
    requires AllSpace(trail)
    ensures TrimEnd(s + trail) == TrimEnd(s)
  {
    if trail == [] {
      assert s + trail == s;
    } else {
      var init := trail[..|trail| - 1];
      assert (s + trail)[|s + trail| - 1] == trail[|trail| - 1];
      assert (s + trail)[..|s + trail| - 1] == s + init;
      TrimEndSkipsSpace(s, init);
    }
  }

  /** Whitespace appended to `s` does not change `s.strip()`. */
  lemma {:induction false} StripIgnoresTrailingSpace(s: string, trail: string)
    requires AllSpace(trail)
    ensures Strip(s + trail) == Strip(s)
  {
    if s == [] {
      assert s + trail == trail + [];
      TrimStartSkipsSpace(trail, []);
      assert TrimStart(s + trail) == [];
      assert Strip(s + trail) == TrimEnd([]);
    } else if IsSpace(s[0]) {
      assert (s + trail)[0] == s[0];
      assert (s + trail)[1..] == s[1..] + trail;
      StripIgnoresTrailingSpace(s[1..], trail);
    } else {
      assert (s + trail)[0] == s[0];
      TrimEndSkipsSpace(s, trail);
    }
  }

  /** `.lower()` neither makes nor removes whitespace, so it commutes with `lstrip()`. */
  lemma {:induction false} TrimStartLower(s: string)
    ensures TrimStart(Lower(s)) == Lower(TrimStart(s))
  {
    if s != [] {
      assert Lower(s)[0] == LowerChar(s[0]);
      if IsSpace(s[0]) {
        assert Lower(s)[1..] == Lower(s[1..]);
        TrimStartLower(s[1..]);
      }
    }
  }

  /** `.lower()` commutes with `rstrip()`. */
  lemma {:induction false} TrimEndLower(s: string)
    ensures TrimEnd(Lower(s)) == Lower(TrimEnd(s))
  {
    if s != [] {
      var n := |s|;
      assert Lower(s)[n - 1] == LowerChar(s[n - 1]);
      if IsSpace(s[n - 1]) {
        assert TrimEnd(Lower(s)) == TrimEnd(Lower(s[..n - 1])) by {
          assert Lower(s)[..n - 1] == Lower(s[..n - 1]);
        }
        TrimEndLower(s[..n - 1]);
      }
    }
  }

  /** `e.strip().lower()` is the text `t` between the whitespace at the two
      ends of `e`, lowered character by character. */
  lemma NormaliseEmailIsLoweredStrip(e: string) returns (lead: string, t: string, trail: string)
    ensures e == lead + t + trail && AllSpace(lead) && AllSpace(trail) && IsStripped(t)
    ensures |NormaliseEmail(e)| == |t|
    ensures forall i :: 0 <= i < |t| ==> NormaliseEmail(e)[i] == LowerChar(t[i])
  {
    lead, trail := StripRemovesOnlyOuterSpace(e);
    t := Strip(e);
    assert NormaliseEmail(e) == Lower(t);
  }

  /** Emails that differ only in surrounding whitespace name the same account. */
  lemma NormaliseEmailIgnoresOuterSpace(lead: string, e: string, trail: string)
    requires AllSpace(lead) && AllSpace(trail)
    ensures NormaliseEmail(lead + e + trail) == NormaliseEmail(e)
  {
    assert lead + e + trail == lead + (e + trail);
    TrimStartSkipsSpace(lead, e + trail);
    StripIgnoresTrailingSpace(e, trail);
    assert Strip(lead + e + trail) == Strip(e);
  }

  /** Emails that differ only in the case of their letters name the same account. */
  lemma NormaliseEmailOfLower(e: string)
    ensures NormaliseEmail(Lower(e)) == NormaliseEmail(e)
  {
    TrimStartLower(e);
    TrimEndLower(TrimStart(e));
    var t := Strip(e);
    assert Strip(Lower(e)) == Lower(t);
    assert Lower(Lower(t)) == Lower(t);
  }

  function DigitChar(d: nat): (c: char)
    requires d < 10
    ensures '0' <= c <= '9' && c as int - '0' as int == d
  {
    ('0' as int + d) as char
  }

  /** `s` consists of decimal digits only. */
  predicate AllDigits(s: string) {
    forall i :: 0 <= i < |s| ==> '0' <= s[i] <= '9'
  }

  /** The number a string of decimal digits denotes, as `int(s)` reads it. */
  function DecimalValue(s: string): nat
    requires AllDigits(s)
  {
    if s == [] then 0 else DecimalValue(s[..|s| - 1]) * 10 + (s[|s| - 1] as int - '0' as int)
  }

  /** `str(n)` for a non-negative integer: decimal digits, no leading zero,
      denoting `n`. */
  function NatToString(n: nat): (r: string)
    ensures |r| >= 1
    ensures AllDigits(r)
    ensures |r| > 1 ==> r[0] != '0'
    ensures n < 10 <==> |r| == 1
    ensures DecimalValue(r) == n
  {
    if n < 10 then
      var r := [DigitChar(n)];
      assert r[..0] == [];
      r
    else
      var prefix := NatToString(n / 10);
      var r := prefix + [DigitChar(n % 10)];
      assert r[..|r| - 1] == prefix;
      r
  }

  /** Different numbers print differently. */
  lemma {:induction false} NatToStringInjective(a: nat, b: nat)
    requires NatToString(a) == NatToString(b)
    ensures a == b
  {
    if a >= 10 && b >= 10 {
      var sa, sb := NatToString(a), NatToString(b);
      assert sa[|sa| - 1] == DigitChar(a % 10) && sb[|sb| - 1] == DigitChar(b % 10);
      assert sa[..|sa| - 1] == NatToString(a / 10);
      assert sb[..|sb| - 1] == NatToString(b / 10);
      NatToStringInjective(a / 10, b / 10);
    } else {
      assert NatToString(a)[0] == NatToString(b)[0];
    }
  }
}
