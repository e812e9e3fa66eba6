/**
  The quantity of ammunition one attack uses (lib/ammo-manager.js lines 50-60):
  1, unless the ammo text names an inline roll `$[[n]]` whose expression holds
  "digits-digits", in which case it is the digits after the first such hyphen.
*/
module RollExpression {
  import opened Wrappers
  import opened JsText

  /** `/\$\[\[(\d+)\]\]/` matches at the start of `t`: "$[[", one or more digits, "]]". */
  predicate RefPrefix(t: string)
  {
    |t| >= 3 && t[..3] == "$[[" &&
    var e := ScanWhile(t, 3, IsDigit);
    e > 3 && e + 2 <= |t| && t[e..e + 2] == "]]"
  }

  /** Where the leftmost match of `/\$\[\[(\d+)\]\]/` starts. */
  function FirstRollRef(s: string): (r: Option<nat>)
    ensures r.Some? ==> r.value < |s| && RefPrefix(s[r.value..])
    ensures r.Some? ==> forall k: nat :: k < r.value ==> !RefPrefix(s[k..])
    ensures r.None? ==> forall k: nat :: k < |s| ==> !RefPrefix(s[k..])
  {
    var at := (p: nat) => p <= |s| && RefPrefix(s[p..]);
    var r := FirstFrom(at, 0, |s|);
    assert forall k: nat :: k <= |s| ==> at(k) == RefPrefix(s[k..]);
    r
  }

  /** The digits captured by the leftmost match of `/\$\[\[(\d+)\]\]/`. */
  function RollRef(s: string): (r: Option<string>)
    ensures r.Some? ==> |r.value| > 0 && AllDigits(r.value)
  {
    match FirstRollRef(s)
    case None => None
    case Some(p) =>
      var t := s[p..];
      Some(t[3..ScanWhile(t, 3, IsDigit)])
  }

  /**
    `/\d+-(\d+)/` matches at the start of `t`: the greedy digit run is followed
    by a hyphen and a digit (a shorter run would leave a digit, not the hyphen,
    after it, so backtracking never helps).
  */
  predicate DashPrefix(t: string)
  {
    |t| > 0 && IsDigit(t[0]) &&
    var e := ScanWhile(t, 0, IsDigit);
    e + 1 < |t| && t[e] == '-' && IsDigit(t[e + 1])
  }

  /** Where the leftmost match of `/\d+-(\d+)/` starts. */
  function FirstDash(s: string): (r: Option<nat>)
    ensures r.Some? ==> r.value < |s| && DashPrefix(s[r.value..])
    ensures r.Some? ==> forall k: nat :: k < r.value ==> !DashPrefix(s[k..])
    ensures r.None? ==> forall k: nat :: k < |s| ==> !DashPrefix(s[k..])
  {
    var at := (p: nat) => p <= |s| && DashPrefix(s[p..]);
    var r := FirstFrom(at, 0, |s|);
    assert forall k: nat :: k <= |s| ==> at(k) == DashPrefix(s[k..]);
    r
  }

  /** The digits captured by the leftmost match of `/\d+-(\d+)/`. */
  function DashTerm(s: string): (r: Option<string>)
    ensures r.Some? ==> |r.value| > 0 && AllDigits(r.value)
    ensures r.Some? ==> '-' in s
  {
    match FirstDash(s)
    case None => None
    case Some(p) =>
      var t := s[p..];
      var e := ScanWhile(t, 0, IsDigit);
      assert s[p + e] == t[e] == '-';
      Some(t[e + 1..ScanWhile(t, e + 1, IsDigit)])
  }

  /**
    `msg.inlinerolls[rollRef[1]].expression` does not throw: the captured digits
    are a canonical array index (no leading zero) below the number of inline
    rolls. Without a reference nothing is looked up.
  */
  predicate RefResolves(ammo: Option<string>, inlineRolls: seq<string>)
  {
    ammo.None? ||
    match RollRef(ammo.value)
    case None => true
    case Some(d) => (d[0] != '0' || |d| == 1) && DigitsValue(d) < |inlineRolls|
  }

  /**
    The quantity used by one attack. `ammo` is the attack's ammo text, absent
    when the option is not given; `inlineRolls` are the expressions of the
    message's inline rolls.
  */
  function QuantityUsed(ammo: Option<string>, inlineRolls: seq<string>): (used: nat)
    requires RefResolves(ammo, inlineRolls)
    ensures ammo.None? || RollRef(ammo.value).None? ==> used == 1
  {
    if ammo.None? then 1
    else
      match RollRef(ammo.value)
      case None => 1
      case Some(d) =>
        match DashTerm(inlineRolls[DigitsValue(d)])
        case None => 1
        case Some(m) => DigitsValue(m)
  }

  /**
    An expression with no "digits-digits" anywhere, such as "1d6-d4" or "2d8",
    never overrides the default of 1.
  */
  lemma QuantityWithoutSubtraction(ammo: string, inlineRolls: seq<string>, n: nat)
    requires RefResolves(Some(ammo), inlineRolls)
    requires RollRef(ammo) == Some(NatToString(n))
    requires n < |inlineRolls| && forall k: nat :: k < |inlineRolls[n]| ==> !DashPrefix(inlineRolls[n][k..])
    ensures QuantityUsed(Some(ammo), inlineRolls) == 1
  {
    CanonicalNumeral(NatToString(n));
  }

  /** A hyphen with no digit after it is no subtraction: `$[[0]]` pointing at "1d6-d4" uses 1. */
  lemma DiceAfterHyphenUsesOne()
    ensures RefResolves(Some("$[[0]]"), ["1d6-d4"])
    ensures QuantityUsed(Some("$[[0]]"), ["1d6-d4"]) == 1
  {
    var e := "1d6-d4";
    assert NatToString(0) == "0";
    assert "" + "$[[" + "0" + "]]" + "" == "$[[0]]";
    RollRefFindsReference("", 0, "");
    forall k: nat | k < |e|
      ensures !DashPrefix(e[k..])
    {
      if k == 2 {
        var t := e[2..];
        assert t == "6-d4" && !IsDigit(t[1]);
        ScanWhileIs(t, 0, IsDigit, 1);
      } else {
        assert k < |e| ==> e[k..][0] == e[k];
        assert k != 0 ==> !IsDigit(e[k]) || k == 5;
        if k == 0 {
          ScanWhileIs(e, 0, IsDigit, 1);
        } else if k == 5 {
          assert |e[5..]| == 1;
        }
      }
    }
    QuantityWithoutSubtraction("$[[0]]", ["1d6-d4"], 0);
  }

  /**
    The first `$[[n]]` in the ammo text is the reference, whatever precedes it
    short of another `$[[digits]]`, and whatever follows it.
  */
  lemma RollRefFindsReference(pre: string, n: nat, post: string)
    requires forall k: nat :: k < |pre| ==> !RefPrefix(pre[k..])
    ensures RollRef(pre + "$[[" + NatToString(n) + "]]" + post) == Some(NatToString(n))
  {
    var digits := NatToString(n);
    var t := "$[[" + digits + "]]" + post;
    var s := pre + t;
    assert s == pre + "$[[" + digits + "]]" + post;
    RefPrefixOf(digits, post);
    assert s[|pre|..] == t;
    forall k: nat | k < |pre|
      ensures !RefPrefix(s[k..])
    {
      if RefPrefix(s[k..]) {
        RefMatchBeforeIsInPre(pre, t, k);
      }
    }
    assert FirstRollRef(s) == Some(|pre|);
  }

  /**
    A match that starts in `pre`, before a `$`, ends within `pre`: the pattern
    has no `$` after its first character.
  */
  lemma RefMatchBeforeIsInPre(pre: string, rest: string, k: nat)
    requires |rest| > 0 && rest[0] == '$' && k < |pre|
    requires RefPrefix((pre + rest)[k..])
    ensures RefPrefix(pre[k..])
  {
    var t := (pre + rest)[k..];
    var e := ScanWhile(t, 3, IsDigit);
    var j := |pre| - k;
    forall i | 1 <= i < e + 2
      ensures t[i] != '$'
    {
      if i < 3 {
        assert t[i] == t[..3][i];
      } else if i >= e {
        assert t[i] == t[e..e + 2][i - e];
      }
    }
    assert t[j] == '$';
    var u := pre[k..];
    assert u[..e + 2] == t[..e + 2];
    ScanWhileIs(u, 3, IsDigit, e);
    assert u[..3] == t[..3] && u[e..e + 2] == t[e..e + 2];
  }

  lemma RefPrefixOf(digits: string, post: string)
    requires |digits| > 0 && AllDigits(digits)
    ensures var t := "$[[" + digits + "]]" + post;
      RefPrefix(t) && t[3..ScanWhile(t, 3, IsDigit)] == digits
  {
    var t := "$[[" + digits + "]]" + post;
    var e := 3 + |digits|;
    forall i | 3 <= i < e
      ensures IsDigit(t[i])
    {
      assert t[i] == digits[i - 3];
    }
    assert t[e] == ']';
    ScanWhileIs(t, 3, IsDigit, e);
    assert t[e..e + 2] == "]]";
    assert t[..3] == "$[[";
    assert t[3..e] == digits;
  }

  /**
    In `pre + x + "-" + y + post`, with no hyphen in `pre`, digits `x` and `y`
    and no digit right after `y`, the capture is `y`: "3d6-2" gives "2", not
    anything from the dice part. Unlike DashTermFirstMatch, a match may start
    inside `pre` when `pre` ends in digits ("12-3" split as "1" + "2" + "-3").
  */
  lemma DashTermFindsSubtraction(pre: string, x: string, y: string, post: string)
    requires '-' !in pre
    requires |x| > 0 && AllDigits(x) && |y| > 0 && AllDigits(y)
    requires post == [] || !IsDigit(post[0])
    ensures DashTerm(pre + x + "-" + y + post) == Some(y)
  {
    var rest := "-" + y + post;
    var s := pre + x + rest;
    assert s == pre + x + "-" + y + post;
    DashMatchInPrefix(s, pre, x, y, post);
    var p := FirstDash(s).value;
    DashRunEnd(s, pre, x, rest, p);
    DashTermAt(s, p, y, post);
  }

  /** When the leftmost match's digit run is followed by "-" + `y` + `post`, the capture is `y`. */
  lemma DashTermAt(s: string, p: nat, y: string, post: string)
    requires FirstDash(s) == Some(p)
    requires s[p..][ScanWhile(s[p..], 0, IsDigit)..] == "-" + y + post
    requires |y| > 0 && AllDigits(y)
    requires post == [] || !IsDigit(post[0])
    ensures DashTerm(s) == Some(y)
  {
    var t := s[p..];
    DashCaptureOf(t, ScanWhile(t, 0, IsDigit), y, post);
  }

  /** A match starts at the latest where `x` does. */
  lemma DashMatchInPrefix(s: string, pre: string, x: string, y: string, post: string)
    requires |x| > 0 && AllDigits(x) && |y| > 0 && AllDigits(y)
    requires s == pre + x + ("-" + y + post)
    ensures FirstDash(s).Some? && FirstDash(s).value <= |pre|
  {
    DashPrefixOf(x, y, post);
    assert s[|pre|..] == x + "-" + y + post;
  }

  /** Every match that starts in `pre` or `x` ends its first digit run at the hyphen after `x`. */
  lemma DashRunEnd(s: string, pre: string, x: string, rest: string, p: nat)
    requires s == pre + x + rest && '-' !in pre && AllDigits(x) && |rest| > 0 && rest[0] == '-'
    requires p <= |pre| && DashPrefix(s[p..])
    ensures p + ScanWhile(s[p..], 0, IsDigit) == |pre| + |x|
    ensures s[p..][ScanWhile(s[p..], 0, IsDigit)..] == rest
  {
    var t := s[p..];
    var e := ScanWhile(t, 0, IsDigit);
    var hyphen := |pre| + |x|;
    assert t[e] == '-';
    assert t[e..] == s[hyphen..] == rest;
  }

  lemma DashPrefixOf(x: string, y: string, post: string)
    requires |x| > 0 && AllDigits(x) && |y| > 0 && AllDigits(y)
    ensures DashPrefix(x + "-" + y + post)
  {
    var t := x + "-" + y + post;
    forall i | 0 <= i < |x|
      ensures IsDigit(t[i])
    {
      assert t[i] == x[i];
    }
    ScanWhileIs(t, 0, IsDigit, |x|);
    assert t[|x| + 1] == y[0];
  }

  lemma DashCaptureOf(t: string, e: nat, y: string, post: string)
    requires e < |t| && t[e..] == "-" + y + post
    requires |y| > 0 && AllDigits(y)
    requires post == [] || !IsDigit(post[0])
    ensures t[e + 1..ScanWhile(t, e + 1, IsDigit)] == y
  {
    var end := e + 1 + |y|;
    forall i | e + 1 <= i < end
      ensures IsDigit(t[i])
    {
      assert t[i] == t[e..][i - e] == y[i - e - 1];
    }
    assert end < |t| ==> t[end] == t[e..][1 + |y|] == post[0];
    ScanWhileIs(t, e + 1, IsDigit, end);
    assert t[e + 1..end] == t[e..][1..1 + |y|] == y;
  }

  /**
    The quantity used is the number after the hyphen of the referenced roll's
    first "digits-digits": `$[[n]]` is the first reference in the ammo text,
    no "digits-digits" match starts before `x` in the expression, and no digit
    follows `used`.
  */
  lemma QuantityFromReferencedRoll(pre: string, n: nat, post: string, inlineRolls: seq<string>,
                                   rollPre: string, x: string, used: nat, rollPost: string)
    requires forall k: nat :: k < |pre| ==> !RefPrefix(pre[k..])
    requires |x| > 0 && AllDigits(x)
    requires rollPost == [] || !IsDigit(rollPost[0])
    requires n < |inlineRolls| && inlineRolls[n] == rollPre + x + "-" + NatToString(used) + rollPost
    requires forall k: nat :: k < |rollPre| ==> !DashPrefix(inlineRolls[n][k..])
    ensures RefResolves(Some(pre + "$[[" + NatToString(n) + "]]" + post), inlineRolls)
    ensures QuantityUsed(Some(pre + "$[[" + NatToString(n) + "]]" + post), inlineRolls) == used
  {
    RollRefFindsReference(pre, n, post);
    DashTermFirstMatch(rollPre, x, NatToString(used), rollPost);
  }

  /**
    When no match starts in `pre`, the capture of `pre + x + "-" + y + post` is
    `y`; `pre` may hold hyphens ("d4-d6 " + "1" + "-2" gives "2").
  */
  lemma DashTermFirstMatch(pre: string, x: string, y: string, post: string)
    requires |x| > 0 && AllDigits(x) && |y| > 0 && AllDigits(y)
    requires post == [] || !IsDigit(post[0])
    requires forall k: nat :: k < |pre| ==> !DashPrefix((pre + x + "-" + y + post)[k..])
    ensures DashTerm(pre + x + "-" + y + post) == Some(y)
  {
    var rest := "-" + y + post;
    var s := pre + x + rest;
    assert s == pre + x + "-" + y + post;
    DashPrefixOf(x, y, post);
    assert s[|pre|..] == x + "-" + y + post;
    assert FirstDash(s) == Some(|pre|);
    var t := s[|pre|..];
    forall i | 0 <= i < |x|
      ensures IsDigit(t[i])
    {
      assert t[i] == x[i];
    }
    ScanWhileIs(t, 0, IsDigit, |x|);
    assert t[|x|..] == rest;
    DashTermAt(s, |pre|, y, post);
  }

  /** The leftmost match decides: `$[[0]]` pointing at "d4-1d6-2" uses 1, from "4-1", not 2. */
  lemma LeftmostSubtractionDecides()
    ensures RefResolves(Some("$[[0]]"), ["d4-1d6-2"])
    ensures QuantityUsed(Some("$[[0]]"), ["d4-1d6-2"]) == 1
  {
    assert NatToString(0) == "0";
    assert NatToString(1) == "1";
    assert "" + "$[[" + "0" + "]]" + "" == "$[[0]]";
    assert "d" + "4" + "-" + "1" + "d6-2" == "d4-1d6-2";
    assert !DashPrefix("d4-1d6-2"[0..]);
    QuantityFromReferencedRoll("", 0, "", ["d4-1d6-2"], "d", "4", 1, "d6-2");
  }

  /** Example: `$[[0]]` pointing at "3d6-2" uses 2 rounds. */
  lemma ThreeDSixMinusTwoUsesTwo()
    ensures RefResolves(Some("$[[0]]"), ["3d6-2"])
    ensures QuantityUsed(Some("$[[0]]"), ["3d6-2"]) == 2
  {
    assert NatToString(0) == "0";
    assert NatToString(2) == "2";
    assert "" + "$[[" + "0" + "]]" + "" == "$[[0]]";
    assert "3d" + "6" + "-" + "2" + "" == "3d6-2";
    QuantityFromReferencedRoll("", 0, "", ["3d6-2"], "3d", "6", 2, "");
  }
}
