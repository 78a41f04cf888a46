/**
  The text contract of the custom size: `parseCustomSize` runs the regular
  expression `(\d+)(,(\d+))?` (unanchored, so the first match in the text
  wins), reads group 1 as the width and group 3, when present, as the
  height, and range-checks the numbers. This module is the pure part; its
  one side effect (falling back to the first preset on a range error) is in
  SizeStore and App.
*/
module CustomSize {
  import opened Wrappers

  /** `\d` without the `u` flag: the ASCII digits only. */
  predicate IsDigit(c: char)
  {
    '0' <= c <= '9'
  }

  predicate AllDigits(s: string)
  {
    forall i :: 0 <= i < |s| ==> IsDigit(s[i])
  }

  predicate NoDigits(s: string)
  {
    forall i :: 0 <= i < |s| ==> !IsDigit(s[i])
  }

  /** `s` does not begin with a digit, so a digit run before it ends there. */
  predicate StopsRun(s: string)
  {
    s == [] || !IsDigit(s[0])
  }

  /** The longest prefix of `s` made of digits: what a greedy `\d+` consumes. */
  function DigitRun(s: string): (d: string)
    ensures d <= s && AllDigits(d)
    ensures StopsRun(s[|d|..])
  {
    if s != [] && IsDigit(s[0]) then [s[0]] + DigitRun(s[1..]) else []
  }

  /** The capture groups 1 and 3 of a successful match. */
  datatype Groups = Groups(width: string, height: Option<string>)

  /** The optional group `(,(\d+))?` tried right after the width digits. */
  function HeightGroup(rest: string): (g: Option<string>)
    ensures g.Some? ==> g.value != [] && AllDigits(g.value)
  {
    if |rest| >= 2 && rest[0] == ',' && IsDigit(rest[1]) then Some(DigitRun(rest[1..])) else None
  }

  /**
    `sz.match(/(\d+)(,(\d+))?/)`: the leftmost match starts at the first
    digit; `None` is the `null` that `match` returns when there is no digit.
  */
  function Match(s: string): (m: Option<Groups>)
    ensures m.Some? ==> m.value.width != [] && AllDigits(m.value.width)
    ensures m.Some? && m.value.height.Some? ==> m.value.height.value != [] && AllDigits(m.value.height.value)
  {
    if s == [] then None
    else if IsDigit(s[0]) then
      var d := DigitRun(s);
      Some(Groups(d, HeightGroup(s[|d|..])))
    else Match(s[1..])
  }

  function DigitValue(c: char): (v: nat)
    requires IsDigit(c)
    ensures v < 10
  {
    c as int - '0' as int
  }

  /** `Number(ds)` on a string of decimal digits (leading zeros allowed). */
  function Number(ds: string): nat
    requires AllDigits(ds)
    decreases |ds|
  {
    if ds == [] then 0 else 10 * Number(ds[..|ds| - 1]) + DigitValue(ds[|ds| - 1])
  }

  function DigitChar(n: nat): (c: char)
    requires n < 10
    ensures IsDigit(c) && DigitValue(c) == n
  {
    ('0' as int + n) as char
  }

  /** The decimal notation of `n` without leading zeros, as a user types a size. */
  function Decimal(n: nat): (s: string)
    ensures s != [] && AllDigits(s)
  {
    if n < 10 then [DigitChar(n)] else Decimal(n / 10) + [DigitChar(n % 10)]
  }

  const MinSide: nat := 50
  const MaxSide: nat := 5000

  predicate InRange(v: nat)
  {
    MinSide <= v <= MaxSide
  }

  /** What `parseCustomSize` ends in, besides its side effect. */
  datatype ParseResult =
    | NoMatch                                   // `matches` is null: reading `matches[1]` throws a TypeError
    | OutOfRange(widthBad: bool, heightBad: bool) // the alerts shown; the source returns null
    | Size(width: nat, height: nat)

  /**
    `x < k` in JavaScript when `x` may be `undefined`: `undefined` converts to
    NaN and every comparison with NaN is false.
  */
  predicate LessThan(x: Option<nat>, k: nat)
  {
    x.Some? && x.value < k
  }

  predicate GreaterThan(x: Option<nat>, k: nat)
  {
    x.Some? && x.value > k
  }

  /**
    The range checks of `parseCustomSize` on the numbers read from groups 1
    and 3. `height !== null` always holds (the height is a number or
    undefined), and with undefined both comparisons are false, so a lone
    number has only its width checked.
  */
  function Check(width: nat, height: Option<nat>): (r: ParseResult)
    ensures r.Size? ==> InRange(r.width) && InRange(r.height)
  {
    var widthBad := width < MinSide || width > MaxSide;
    var heightBad := LessThan(height, MinSide) || GreaterThan(height, MaxSide);
    if widthBad || heightBad then OutOfRange(widthBad, heightBad)
    else if height.Some? then Size(width, height.value)
    else Size(width, width)
  }

  /** The pure part of `parseCustomSize(sz)`. */
  function Parse(sz: string): (r: ParseResult)
    ensures r.Size? ==> InRange(r.width) && InRange(r.height)
  {
    match Match(sz)
    case None => NoMatch
    case Some(g) =>
      // group 1 is never undefined in a match, so the `? 0 :` branch is dead
      Check(Number(g.width), if g.height.Some? then Some(Number(g.height.value)) else None)
  }

  // ---------------------------------------------------------------------------
  // Properties of the matcher

  /** A digit run followed by a non-digit is consumed whole by `\d+`. */
  lemma {:induction false} DigitRunOf(d: string, rest: string)
    requires AllDigits(d) && StopsRun(rest)
    ensures DigitRun(d + rest) == d
    decreases |d|
  {
    if d == [] {
      assert d + rest == rest;
    } else {
      assert (d + rest)[1..] == d[1..] + rest;
      DigitRunOf(d[1..], rest);
    }
  }

  /** The match is unanchored: leading text without digits is skipped. */
  lemma {:induction false} MatchSkipsPrefix(p: string, s: string)
    requires NoDigits(p)
    ensures Match(p + s) == Match(s)
    decreases |p|
  {
    if p != [] {
      assert (p + s)[0] == p[0];
      assert (p + s)[1..] == p[1..] + s;
      MatchSkipsPrefix(p[1..], s);
    } else {
      assert p + s == s;
    }
  }

  /** `match` returns null exactly when the text holds no digit. */
  lemma {:induction false} MatchNoneIffNoDigits(s: string)
    ensures Match(s).None? <==> NoDigits(s)
    decreases |s|
  {
    if s != [] {
      MatchNoneIffNoDigits(s[1..]);
      if !IsDigit(s[0]) {
        assert NoDigits(s[1..]) ==> NoDigits(s) by {
          if NoDigits(s[1..]) {
            forall i | 0 <= i < |s| ensures !IsDigit(s[i]) {
              if i > 0 { assert s[i] == s[1..][i - 1]; }
            }
          }
        }
        assert NoDigits(s) ==> NoDigits(s[1..]) by {
          if NoDigits(s) {
            forall i | 0 <= i < |s[1..]| ensures !IsDigit(s[1..][i]) {
              assert s[1..][i] == s[i + 1];
            }
          }
        }
      }
    }
  }

  /**
    The full shape of a match: in `p + d + rest`, where `p` has no digit and
    `d` is a maximal digit run, group 1 is `d` and group 3 is the digit run
    after a comma that directly follows `d`, if there is one.
  */
  lemma {:induction false} MatchFirstRun(p: string, d: string, rest: string)
    requires NoDigits(p) && d != [] && AllDigits(d) && StopsRun(rest)
    ensures Match(p + d + rest) == Some(Groups(d, HeightGroup(rest)))
  {
    assert p + d + rest == p + (d + rest);
    MatchSkipsPrefix(p, d + rest);
    DigitRunOf(d, rest);
    assert (d + rest)[0] == d[0];
    assert (d + rest)[|d|..] == rest;
  }

  /** A comma and a maximal digit run make up group 3. */
  lemma {:induction false} HeightGroupOf(e: string, rest: string)
    requires e != [] && AllDigits(e) && StopsRun(rest)
    ensures HeightGroup([','] + e + rest) == Some(e)
  {
    var t := [','] + e + rest;
    assert t[0] == ',' && t[1] == e[0];
    assert t[1..] == e + rest;
    DigitRunOf(e, rest);
  }

  // ---------------------------------------------------------------------------
  // Properties of the numbers

  lemma {:induction false} NumberOfDecimal(n: nat)
    ensures Number(Decimal(n)) == n
  {
    if n >= 10 {
      var s := Decimal(n);
      var init := Decimal(n / 10);
      assert s == init + [DigitChar(n % 10)];
      assert s[..|s| - 1] == init;
      NumberOfDecimal(n / 10);
    }
  }

  // ---------------------------------------------------------------------------
  // Properties of parseCustomSize

  /** `parseCustomSize` fails on its null match exactly when the text has no digit. */
  lemma {:induction false} ParseNoMatchIffNoDigits(sz: string)
    ensures Parse(sz) == NoMatch <==> NoDigits(sz)
  {
    MatchNoneIffNoDigits(sz);
  }

  /** Text before the first digit does not matter. */
  lemma {:induction false} ParseSkipsPrefix(p: string, sz: string)
    requires NoDigits(p)
    ensures Parse(p + sz) == Parse(sz)
  {
    MatchSkipsPrefix(p, sz);
  }

  /** A digit run and its optional height group, read off as numbers and range-checked. */
  lemma {:induction false} ParseRun(d: string, rest: string)
    requires d != [] && AllDigits(d) && StopsRun(rest)
    ensures HeightGroup(rest).None? ==> Parse(d + rest) == Check(Number(d), None)
    ensures HeightGroup(rest).Some? ==> Parse(d + rest) == Check(Number(d), Some(Number(HeightGroup(rest).value)))
  {
    assert d + rest == [] + d + rest;
    MatchFirstRun([], d, rest);
  }

  /** Regrouping `d + "," + e + tail` around the part after `d`. */
  lemma Regroup(d: string, e: string, tail: string)
    ensures d + "," + e + tail == d + ([','] + e + tail)
  {
    var s := d + "," + e + tail;
    forall i | 0 <= i < |s| ensures s[i] == (d + ([','] + e + tail))[i] { }
  }

  /** `"{digits},{digits}"` and a tail that does not extend them is range-checked on both numbers. */
  lemma {:induction false} ParsePair(d: string, e: string, tail: string)
    requires d != [] && AllDigits(d) && e != [] && AllDigits(e) && StopsRun(tail)
    ensures Parse(d + "," + e + tail) == Check(Number(d), Some(Number(e)))
  {
    HeightGroupOf(e, tail);
    ParseRun(d, [','] + e + tail);
    Regroup(d, e, tail);
  }

  /** `"{digits},{digits}"` on its own is range-checked on both numbers. */
  lemma {:induction false} ParseBarePair(d: string, e: string)
    requires d != [] && AllDigits(d) && e != [] && AllDigits(e)
    ensures Parse(d + "," + e) == Check(Number(d), Some(Number(e)))
  {
    ParsePair(d, e, "");
    assert d + "," + e + "" == d + "," + e;
  }

  /**
    `"{width},{height}"` followed by anything that does not extend the
    second number parses to that width and height when both are in range,
    and otherwise is rejected naming each dimension that is out of range.
  */
  lemma {:induction false} ParseWidthHeight(w: nat, h: nat, tail: string)
    requires StopsRun(tail)
    ensures Parse(Decimal(w) + "," + Decimal(h) + tail) ==
      if InRange(w) && InRange(h) then Size(w, h) else OutOfRange(!InRange(w), !InRange(h))
  {
    ParsePair(Decimal(w), Decimal(h), tail);
    NumberOfDecimal(w);
    NumberOfDecimal(h);
  }

  /**
    `"{side}"` followed by anything that neither extends the number nor
    starts `,digits` parses to a square; only the width is range-checked,
    since a missing height compares false against both bounds.
  */
  lemma {:induction false} ParseSide(n: nat, tail: string)
    requires StopsRun(tail) && HeightGroup(tail).None?
    ensures Parse(Decimal(n) + tail) == if InRange(n) then Size(n, n) else OutOfRange(true, false)
  {
    ParseRun(Decimal(n), tail);
    NumberOfDecimal(n);
  }

  // The examples below write their texts as concatenations of the numbers
  // they contain, which lets the general lemmas apply to them directly.

  lemma Number250()
    ensures Number("250") == 250
  {
    assert "250"[..2] == "25" && "25"[..1] == "2" && "2"[..0] == "";
  }

  lemma Number350()
    ensures Number("350") == 350
  {
    assert "350"[..2] == "35" && "35"[..1] == "3" && "3"[..0] == "";
  }

  lemma Number10()
    ensures Number("10") == 10
  {
    assert "10"[..1] == "1" && "1"[..0] == "";
  }

  lemma Number500()
    ensures Number("500") == 500
  {
    assert "500"[..2] == "50" && "50"[..1] == "5" && "5"[..0] == "";
  }

  lemma Number300()
    ensures Number("300") == 300
  {
    assert "300"[..2] == "30" && "30"[..1] == "3" && "3"[..0] == "";
  }

  /** The example of the prompt text: `"250,350"` is 250 wide by 350 high. */
  lemma ParseExampleWidthHeight()
    ensures Parse("250" + "," + "350") == Size(250, 350)
  {
    Number250();
    Number350();
    ParseBarePair("250", "350");
  }

  /** The example of the prompt text: `"250"` is a 250 by 250 square. */
  lemma ParseExampleSide()
    ensures Parse("250") == Size(250, 250)
  {
    Number250();
    ParseRun("250", "");
    assert "250" + "" == "250";
  }

  /** `"10,500"` is rejected for its width only. */
  lemma ParseExampleNarrow()
    ensures Parse("10" + "," + "500") == OutOfRange(true, false)
  {
    Number10();
    Number500();
    ParseBarePair("10", "500");
  }

  /** `"300,300"` is a 300 by 300 square given in full. */
  lemma ParseExampleSquare()
    ensures Parse("300" + "," + "300") == Size(300, 300)
  {
    Number300();
    ParseBarePair("300", "300");
  }

  /** `"abc"` has no digit, so the match is null. */
  lemma ParseExampleNoDigits()
    ensures Parse("abc") == NoMatch
  {
    ParseNoMatchIffNoDigits("abc");
  }

  /** Leading and trailing text is ignored: `"size 300x200"` is a 300 by 300 square. */
  lemma ParseExampleSurrounded()
    ensures Parse("size " + "300" + "x200") == Size(300, 300)
  {
    var prefix := "size ";
    assert NoDigits(prefix) by {
      forall i | 0 <= i < |prefix| ensures !IsDigit(prefix[i]) {
        assert prefix[i] in {'s', 'i', 'z', 'e', ' '};
      }
    }
    Number300();
    ParseSkipsPrefix(prefix, "300" + "x200");
    ParseRun("300", "x200");
    assert prefix + "300" + "x200" == prefix + ("300" + "x200");
  }
}
