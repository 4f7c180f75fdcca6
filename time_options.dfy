/** The 48 source-time choices "00:00", "00:30", ..., "23:30". */
module TimeOptions {
  import opened Text

  /** `Math.floor(h).toString().padStart(2, '0')`. */
  function Pad2(h: nat): (s: string)
    requires h < 100
    ensures |s| == 2
    ensures forall k :: 0 <= k < 2 ==> '0' <= s[k] <= '9'
  {
    PadStart(DecimalString(h), 2, '0')
  }

  /** Two-digit hours: the tens digit, then the units digit. */
  lemma Pad2Digits(h: nat)
    requires h < 100
    ensures Pad2(h) == [Digit(h / 10), Digit(h % 10)]
  {
    if h < 10 {
      assert DecimalString(h) == [Digit(h)];
      assert Pad2(h) == PadStart(['0'] + [Digit(h)], 2, '0');
      assert Digit(0) == '0';
    }
  }

  /** The minutes part of option i. */
  function Minutes(i: nat): string
  {
    if i % 2 == 0 then "00" else "30"
  }

  /** Option i of the generator: the hour i / 2, padded, a colon, then the minutes. */
  function TimeOption(i: nat): (o: string)
    requires i < 48
    ensures |o| == 5 && o[2] == ':'
    ensures '0' <= o[0] <= '9' && '0' <= o[1] <= '9'
    ensures (o[3] == '0' || o[3] == '3') && o[4] == '0'
  {
    Pad2(i / 2) + ":" + Minutes(i)
  }

  /** The generated list. */
  function Options(): (ts: seq<string>)
    ensures |ts| == 48
  {
    seq(48, i requires 0 <= i < 48 => TimeOption(i))
  }

  /** Every option is five characters "HH:MM" with two decimal digits on each side. */
  lemma {:induction false} OptionShape(i: nat)
    requires i < 48
    ensures Options()[i] == [Digit(i / 2 / 10), Digit(i / 2 % 10), ':', if i % 2 == 0 then '0' else '3', '0']
  {
    assert Options()[i] == TimeOption(i);
    SpelledOut(i / 2, i % 2, TimeOption(i));
  }

  /** The characters of the option for hour h and half-hour `half`. */
  lemma {:induction false} SpelledOut(h: nat, half: nat, t: string)
    requires h < 24 && half < 2
    requires t == Pad2(h) + ":" + (if half == 0 then "00" else "30")
    ensures t == [Digit(h / 10), Digit(h % 10), ':', if half == 0 then '0' else '3', '0']
  {
    Pad2Digits(h);
  }

  /** The numeric value of a decimal digit character. */
  function DigitValue(c: char): int
  {
    c as int - '0' as int
  }

  /** The minute of the day that an "HH:MM" string denotes. */
  function MinuteOfDay(t: string): int
    requires |t| == 5
  {
    (10 * DigitValue(t[0]) + DigitValue(t[1])) * 60 + 10 * DigitValue(t[3]) + DigitValue(t[4])
  }

  /** The minute of the day of an "HH:MM" string built from its digits. */
  lemma {:induction false} ShapeMinute(t: string, h: nat, half: nat)
    requires h < 24 && half < 2
    requires t == [Digit(h / 10), Digit(h % 10), ':', if half == 0 then '0' else '3', '0']
    ensures MinuteOfDay(t) == 60 * h + 30 * half
  {
    var tens, units := h / 10, h % 10;
    assert DigitValue(t[0]) == tens && DigitValue(t[1]) == units;
    assert DigitValue(t[3]) == 3 * half && DigitValue(t[4]) == 0;
    assert 10 * tens + units == h;
  }

  /** Option i denotes minute 30 * i: the options cover the day at 30-minute
      granularity, from 00:00 (i = 0) to 23:30 (i = 47). */
  lemma {:induction false} OptionMinute(i: nat)
    requires i < 48
    ensures |Options()[i]| == 5 && MinuteOfDay(Options()[i]) == 30 * i
  {
    OptionShape(i);
    ShapeMinute(Options()[i], i / 2, i % 2);
    assert i == 2 * (i / 2) + i % 2;
  }

  /** The first and the last option. */
  lemma {:induction false} OptionBounds()
    ensures Options()[0] == "00:00" && Options()[47] == "23:30"
  {
    OptionShape(0);
    OptionShape(47);
    DigitsSpelled(Options()[0], Options()[47]);
  }

  lemma DigitsSpelled(first: string, last: string)
    requires first == [Digit(0 / 2 / 10), Digit(0 / 2 % 10), ':', '0', '0']
    requires last == [Digit(47 / 2 / 10), Digit(47 / 2 % 10), ':', '3', '0']
    ensures first == "00:00" && last == "23:30"
  {
    assert Digit(0) == '0' && Digit(2) == '2' && Digit(3) == '3';
  }

  /** Two "HH:MM" strings whose digits compare as stated are ordered. */
  lemma {:induction false} ShapeLess(a: string, b: string, ti: nat, ui: nat, tj: nat, uj: nat, mi: char, mj: char)
    requires ti < 10 && ui < 10 && tj < 10 && uj < 10
    requires a == [Digit(ti), Digit(ui), ':', mi, '0']
    requires b == [Digit(tj), Digit(uj), ':', mj, '0']
    requires ti < tj || (ti == tj && ui < uj) || (ti == tj && ui == uj && mi < mj)
    ensures LexLess(a, b)
  {
    if ti < tj {
      LexLessAtFirstDifference(a, b, 0);
    } else if ui < uj {
      assert a[..1] == b[..1];
      LexLessAtFirstDifference(a, b, 1);
    } else {
      assert a[..3] == b[..3];
      LexLessAtFirstDifference(a, b, 3);
    }
  }

  /** The options are strictly increasing as JavaScript compares strings. */
  lemma {:induction false} OptionsIncreasing(i: nat, j: nat)
    requires i < j < 48
    ensures LexLess(Options()[i], Options()[j])
  {
    OptionShape(i);
    OptionShape(j);
    HourDigitsOrder(i, j);
    ShapeLess(Options()[i], Options()[j], i / 2 / 10, i / 2 % 10, j / 2 / 10, j / 2 % 10,
              if i % 2 == 0 then '0' else '3', if j % 2 == 0 then '0' else '3');
  }

  /** For slots i < j the digits of their hours and their half-hours compare
      in the order the strings are compared. */
  lemma HourDigitsOrder(i: nat, j: nat)
    requires i < j < 48
    ensures var hi, hj := i / 2, j / 2;
            hi / 10 < hj / 10 || (hi / 10 == hj / 10 && hi % 10 < hj % 10) ||
            (hi / 10 == hj / 10 && hi % 10 == hj % 10 && i % 2 == 0 && j % 2 == 1)
  {
    var hi, hj := i / 2, j / 2;
    var ti, ui, tj, uj := hi / 10, hi % 10, hj / 10, hj % 10;
    assert hi == 10 * ti + ui && hj == 10 * tj + uj;
    assert ti <= tj;
    if ti == tj && ui >= uj {
      assert hi == hj;
      assert i % 2 == 0 && j % 2 == 1;
    }
  }

  /** Hence no option occurs twice. */
  lemma {:induction false} OptionsDistinct(i: nat, j: nat)
    requires i < 48 && j < 48 && i != j
    ensures Options()[i] != Options()[j]
  {
    OptionMinute(i);
    OptionMinute(j);
  }

  /** `option.split(':')` gives back the padded hour and the minutes. */
  lemma {:induction false} OptionSplits(i: nat)
    requires i < 48
    ensures Split(Options()[i], ':') == [Pad2(i / 2), Minutes(i)]
  {
    var h := i / 2;
    Pad2Digits(h);
    var parts := [Pad2(h), Minutes(i)];
    assert ':' !in parts[0] && ':' !in parts[1];
    calc {
      Join(parts, ':');
      parts[0] + [':'] + Join(parts[1..], ':');
      { assert parts[1..] == [Minutes(i)]; }
      Pad2(h) + ":" + Minutes(i);
      Options()[i];
    }
    SplitJoin(parts, ':');
  }
}
