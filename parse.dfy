/**
  JavaScript's `parseInt(value, 10) || 0`, as the source applies it to the
  `current` value of a quantity attribute (lib/ammo-manager.js line 62).
*/
module JsParse {
  import opened Wrappers
  import opened JsText

  /** What an attribute's `current` holds: text typed into the sheet, or a number the script wrote. */
  datatype JsValue = Str(s: string) | Num(n: int)

  /** `String(v)`. */
  function ToJsString(v: JsValue): string
  {
    match v
    case Str(s) => s
    case Num(n) => IntToString(n)
  }

  /**
    `parseInt(s, 10)`, None standing for NaN: skip leading white space, then
    read a signed decimal integer.
  */
  function ParseInt10(s: string): Option<int>
  {
    ParseSigned(s[ScanWhile(s, 0, IsJsWhiteSpace)..])
  }

  /** An optional sign, then the digits; no digit gives NaN. */
  function ParseSigned(t: string): Option<int>
  {
    var negative := |t| > 0 && t[0] == '-';
    match ParseDigits(Unsigned(t))
    case None => None
    case Some(m) => Some(if negative then -(m as int) else m)
  }

  /** The text after a leading sign, if there is one. */
  function Unsigned(t: string): string
  {
    if |t| > 0 && (t[0] == '-' || t[0] == '+') then t[1..] else t
  }

  /** The value of the longest run of decimal digits at the front of `u`; None when there is none. */
  function ParseDigits(u: string): Option<nat>
  {
    var end := ScanWhile(u, 0, IsDigit);
    if end == 0 then None else Some(DigitsValue(u[..end]))
  }

  /** `parseInt(v, 10) || 0`: NaN (and zero) become 0. */
  function ParseIntOrZero(v: JsValue): int
  {
    ParseInt10(ToJsString(v)).GetOr(0)
  }

  /**
    Leading white space is skipped and whatever follows the digits is ignored:
    `parseInt` reads back the integer written at the front of the text.
  */
  lemma ParseIntReadsLeadingInteger(ws: string, n: int, rest: string)
    requires forall i :: 0 <= i < |ws| ==> IsJsWhiteSpace(ws[i])
    requires rest == [] || !IsDigit(rest[0])
    ensures ParseInt10(ws + IntToString(n) + rest) == Some(n)
  {
    var num := IntToString(n);
    assert ws + num + rest == ws + (num + rest);
    SkipsWhiteSpace(ws, num + rest);
    SignedRead(n, rest);
  }

  /** `parseInt` skips exactly the white space in front of the text. */
  lemma SkipsWhiteSpace(ws: string, t: string)
    requires forall i :: 0 <= i < |ws| ==> IsJsWhiteSpace(ws[i])
    requires t == [] || !IsJsWhiteSpace(t[0])
    ensures ParseInt10(ws + t) == ParseSigned(t)
  {
    var s := ws + t;
    assert t != [] ==> s[|ws|] == t[0];
    ScanWhileIs(s, 0, IsJsWhiteSpace, |ws|);
    assert s[|ws|..] == t;
  }

  /**
    NaN: when, after the white space and an optional sign, the text does not
    start with a digit, `parseInt` gives NaN and `parseInt(..) || 0` gives 0.
  */
  lemma ParseIntNaN(ws: string, t: string)
    requires forall i :: 0 <= i < |ws| ==> IsJsWhiteSpace(ws[i])
    requires t == [] || !IsJsWhiteSpace(t[0])
    requires Unsigned(t) == [] || !IsDigit(Unsigned(t)[0])
    ensures ParseInt10(ws + t) == None
    ensures ParseIntOrZero(Str(ws + t)) == 0
  {
    SkipsWhiteSpace(ws, t);
    ScanWhileIs(Unsigned(t), 0, IsDigit, 0);
  }

  /** The sign `parseInt` accepts in front of the digits. */
  datatype Sign = Unmarked | Plus | Minus

  function SignText(sg: Sign): string
  {
    match sg
    case Unmarked => ""
    case Plus => "+"
    case Minus => "-"
  }

  /**
    Any run of digits, leading zeros included, after white space and an
    optional "+" or "-", is read as its signed value; whatever follows the
    run is ignored.
  */
  lemma {:induction false} ParseIntReadsDigits(ws: string, sg: Sign, digits: string, rest: string)
    requires forall i :: 0 <= i < |ws| ==> IsJsWhiteSpace(ws[i])
    requires |digits| > 0 && AllDigits(digits)
    requires rest == [] || !IsDigit(rest[0])
    ensures ParseInt10(ws + (SignText(sg) + (digits + rest))) ==
      Some(if sg == Minus then -(DigitsValue(digits) as int) else DigitsValue(digits))
  {
    var t := SignText(sg) + (digits + rest);
    SignedDigitsRead(sg, digits, rest);
    SkipsWhiteSpace(ws, t);
  }

  /** The sign, then the digit run, then anything but a digit: the signed value of the run. */
  lemma {:induction false} SignedDigitsRead(sg: Sign, digits: string, rest: string)
    requires |digits| > 0 && AllDigits(digits)
    requires rest == [] || !IsDigit(rest[0])
    ensures var t := SignText(sg) + (digits + rest);
      ParseSigned(t) == Some(if sg == Minus then -(DigitsValue(digits) as int) else DigitsValue(digits))
      && !IsJsWhiteSpace(t[0])
  {
    var m := DigitsValue(digits);
    DigitsRead(digits, rest);
    match sg {
      case Unmarked => UnmarkedRead(digits + rest, m);
      case Plus => PlusRead(digits + rest, m);
      case Minus => MinusRead(digits + rest, m);
    }
  }

  lemma UnmarkedRead(u: string, m: nat)
    requires |u| > 0 && IsDigit(u[0]) && ParseDigits(u) == Some(m)
    ensures ParseSigned("" + u) == Some(m) && !IsJsWhiteSpace(("" + u)[0])
  {
    assert "" + u == u;
    NoSign(u, m);
  }

  lemma PlusRead(u: string, m: nat)
    requires ParseDigits(u) == Some(m)
    ensures ParseSigned("+" + u) == Some(m) && !IsJsWhiteSpace(("+" + u)[0])
  {
    assert ("+" + u)[1..] == u;
    PlusSign("+" + u, m);
  }

  lemma MinusRead(u: string, m: nat)
    requires ParseDigits(u) == Some(m)
    ensures ParseSigned("-" + u) == Some(-(m as int)) && !IsJsWhiteSpace(("-" + u)[0])
  {
    assert ("-" + u)[1..] == u;
    MinusSign("-" + u, m);
  }

  /** After a plus sign the digits are read as they are. */
  lemma PlusSign(t: string, m: nat)
    requires |t| > 0 && t[0] == '+' && ParseDigits(t[1..]) == Some(m)
    ensures ParseSigned(t) == Some(m)
  {
  }

  /** A plus sign and leading zeros: "+007" reads as 7. */
  lemma PlusWithLeadingZeros()
    ensures ParseIntOrZero(Str("+007")) == 7
  {
    assert DigitsValue("007") == 7 by {
      assert "007"[..2] == "00" && "00"[..1] == "0" && "0"[..0] == "";
    }
    assert "+007" == "" + (SignText(Plus) + ("007" + ""));
    ParseIntReadsDigits("", Plus, "007", "");
  }

  /** White space and trailing text: " -12px" reads as -12. */
  lemma NegativeWithTrailingText()
    ensures ParseIntOrZero(Str(" -12px")) == -12
  {
    assert DigitsValue("12") == 12 by {
      assert "12"[..1] == "1" && "1"[..0] == "";
    }
    assert " -12px" == " " + (SignText(Minus) + ("12" + "px"));
    ParseIntReadsDigits(" ", Minus, "12", "px");
  }

  /** No number at all: "ten" and the empty text read as NaN, hence 0. */
  lemma NoNumberIsZero()
    ensures ParseIntOrZero(Str("ten")) == 0
    ensures ParseIntOrZero(Str("")) == 0
  {
    assert "ten" == "" + "ten";
    ParseIntNaN("", "ten");
    assert "" == "" + "";
    ParseIntNaN("", "");
  }

  /** The text of an integer, followed by anything but a digit, reads back as that integer. */
  lemma SignedRead(n: int, rest: string)
    requires rest == [] || !IsDigit(rest[0])
    ensures ParseSigned(IntToString(n) + rest) == Some(n)
  {
    if n < 0 {
      NegativeRead(n, rest);
    } else {
      NonNegativeRead(n, rest);
    }
  }

  lemma NegativeRead(n: int, rest: string)
    requires n < 0 && (rest == [] || !IsDigit(rest[0]))
    ensures ParseSigned(IntToString(n) + rest) == Some(n)
  {
    var digits := NatToString(-n);
    NegativeText(n, rest);
    DigitsRead(digits, rest);
    MinusSign(IntToString(n) + rest, -n);
  }

  /** The text of a negative integer is a minus sign followed by the numeral of its magnitude. */
  lemma {:induction false} NegativeText(n: int, rest: string)
    requires n < 0
    ensures var t := IntToString(n) + rest;
      |t| > 0 && t[0] == '-' && t[1..] == NatToString(-n) + rest
  {
    var num := IntToString(n);
    assert num[1..] == NatToString(-n);
    assert (num + rest)[1..] == num[1..] + rest;
  }

  lemma NonNegativeRead(n: int, rest: string)
    requires n >= 0 && (rest == [] || !IsDigit(rest[0]))
    ensures ParseSigned(IntToString(n) + rest) == Some(n)
  {
    var t := IntToString(n) + rest;
    assert IsDigit(t[0]) && ParseDigits(t) == Some(n) by {
      var digits := NatToString(n);
      assert t == digits + rest;
      DigitsRead(digits, rest);
    }
    NoSign(t, n);
  }

  /** After a minus sign the digits are negated. */
  lemma MinusSign(t: string, m: nat)
    requires |t| > 0 && t[0] == '-' && ParseDigits(t[1..]) == Some(m)
    ensures ParseSigned(t) == Some(-(m as int))
  {
  }

  /** Without a sign the digits are read as they are. */
  lemma NoSign(t: string, m: nat)
    requires |t| > 0 && IsDigit(t[0]) && ParseDigits(t) == Some(m)
    ensures ParseSigned(t) == Some(m)
  {
  }

  /** The digit run at the front of `digits + rest` is `digits`. */
  lemma DigitsRead(digits: string, rest: string)
    requires |digits| > 0 && AllDigits(digits)
    requires rest == [] || !IsDigit(rest[0])
    ensures ParseDigits(digits + rest) == Some(DigitsValue(digits))
  {
    var u := digits + rest;
    assert |digits| < |u| ==> u[|digits|] == rest[0];
    ScanWhileIs(u, 0, IsDigit, |digits|);
    assert u[..|digits|] == digits;
  }

  /** A number the script stored reads back as itself. */
  lemma ParseIntOfNumber(n: int)
    ensures ParseIntOrZero(Num(n)) == n
  {
    var num := IntToString(n);
    ScanWhileIs(num, 0, IsJsWhiteSpace, 0);
    assert num[0..] == num + "";
    SignedRead(n, "");
  }
}
