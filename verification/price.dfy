/**
 Price text as the menu shows it (`₦1,500`) and the number the cart reads
 from it (script.js line 65): the first naira sign is removed, then the first
 comma, and what remains goes through `parseInt`. Only the FIRST comma goes,
 so a price with two thousands separators is read up to the second one.
 */
module Price {
  import opened JsNumber

  const Naira: char := '₦'

  /** `s.replace(c, '')` with a one-character string pattern: the first
      occurrence of `c`, if any, is dropped. */
  function ReplaceFirst(s: string, c: char): (r: string)
    ensures c !in s ==> r == s
    ensures c in s ==> |r| == |s| - 1
  {
    if |s| == 0 then s
    else
      assert s == [s[0]] + s[1..];
      if s[0] == c then s[1..] else [s[0]] + ReplaceFirst(s[1..], c)
  }

  /** Dropping a character adds none. */
  lemma {:induction false} ReplaceFirstKeeps(s: string, c: char, x: char)
    requires x in ReplaceFirst(s, c)
    ensures x in s
    decreases |s|
  {
    if |s| > 0 && s[0] != c && x != s[0] {
      assert x in ReplaceFirst(s[1..], c);
      ReplaceFirstKeeps(s[1..], c, x);
    }
  }

  /** The occurrence removed is the first one: whatever precedes it stays. */
  lemma {:induction false} ReplaceFirstSplit(a: string, c: char, b: string)
    requires c !in a
    ensures ReplaceFirst(a + [c] + b, c) == a + b
    decreases |a|
  {
    if |a| > 0 {
      assert (a + [c] + b)[1..] == a[1..] + [c] + b;
      ReplaceFirstSplit(a[1..], c, b);
      assert a + b == [a[0]] + (a[1..] + b);
    }
  }

  /** The unit price `parseInt(price.replace('₦', '').replace(',', ''))`. */
  function ParsePrice(price: string): Num {
    ParseInt(ReplaceFirst(ReplaceFirst(price, Naira), ','))
  }

  /** A price is a number only if its text holds a decimal digit. */
  lemma ParsePriceNeedsDigit(price: string)
    ensures ParsePrice(price).Finite? ==> exists k :: 0 <= k < |price| && IsDecimalDigit(price[k])
  {
    var bare := ReplaceFirst(ReplaceFirst(price, Naira), ',');
    if ParseInt(bare).Finite? {
      var k :| 0 <= k < |bare| && IsDecimalDigit(bare[k]);
      ReplaceFirstKeeps(ReplaceFirst(price, Naira), ',', bare[k]);
      ReplaceFirstKeeps(price, Naira, bare[k]);
    }
  }

  /** A price with a naira sign and no separator reads as its digits. */
  lemma ParsePriceUngrouped(d: string)
    requires |d| > 0 && AllDigits(d, 10)
    ensures ParsePrice([Naira] + d) == Finite(DigitsValue(d, 10))
  {
    assert Naira !in [];
    ReplaceFirstSplit([], Naira, d);
    assert [] + [Naira] + d == [Naira] + d;
    NoCommaInDigits(d);
    ParseIntLeadingDigits(d, []);
    assert d + [] == d;
  }

  /** One thousands separator is dropped: `₦a,b` reads as the digits of `a`
      followed by those of `b`. */
  lemma ParsePriceOneSeparator(a: string, b: string)
    requires |a| > 0 && AllDigits(a, 10) && AllDigits(b, 10)
    ensures ParsePrice([Naira] + a + [','] + b) == Finite(DigitsValue(a + b, 10))
  {
    var rest := a + [','] + b;
    ReplaceFirstSplit([], Naira, rest);
    assert [] + [Naira] + rest == [Naira] + a + [','] + b;
    assert [] + rest == rest;
    NoCommaInDigits(a);
    ReplaceFirstSplit(a, ',', b);
    ParseIntLeadingDigits(a + b, []);
    assert a + b + [] == a + b;
  }

  /** A second separator is NOT dropped, and `parseInt` stops at it:
      `₦a,b,c` reads as the digits of `a` followed by those of `b` only. */
  lemma ParsePriceStopsAtSecondSeparator(a: string, b: string, c: string)
    requires |a| > 0 && AllDigits(a, 10) && AllDigits(b, 10)
    ensures ParsePrice([Naira] + a + [','] + b + [','] + c) == Finite(DigitsValue(a + b, 10))
  {
    var price := [Naira] + a + [','] + b + [','] + c;
    StripNairaTwoSeparators(a, b, c);
    NoCommaInDigits(a);
    StripFirstComma(a, b, [','] + c);
    AllDigitsConcat(a, b, 10);
    ParseIntLeadingDigits(a + b, [','] + c);
    ParsePriceUnfold(price);
  }

  lemma StripNairaTwoSeparators(a: string, b: string, c: string)
    ensures ReplaceFirst([Naira] + a + [','] + b + [','] + c, Naira) == a + [','] + (b + ([','] + c))
  {
    var front := a + [','];
    calc {
      [Naira] + a + [','] + b + [','] + c;
      [Naira] + (front + b + [','] + c);
      { assert front + b + [','] + c == front + (b + [',']) + c; }
      [Naira] + (front + (b + [',']) + c);
      { assert front + (b + [',']) + c == front + (b + ([','] + c)); }
      [Naira] + (front + (b + ([','] + c)));
    }
  }

  lemma StripFirstComma(a: string, b: string, c: string)
    requires ',' !in a
    ensures ReplaceFirst(a + [','] + (b + c), ',') == (a + b) + c
  {
    ReplaceFirstSplit(a, ',', b + c);
  }

  lemma ParsePriceUnfold(price: string)
    ensures ParsePrice(price) == ParseInt(ReplaceFirst(ReplaceFirst(price, Naira), ','))
  {
  }

  lemma NoCommaInDigits(d: string)
    requires AllDigits(d, 10)
    ensures ',' !in d && Naira !in d
  {
  }

  /** The menu's own example: `₦1,500` costs 1500. */
  lemma ParsePriceExample()
    ensures ParsePrice("₦1,500") == Finite(1500)
  {
    assert "₦1,500" == [Naira] + "1" + [','] + "500";
    ParsePriceOneSeparator("1", "500");
    FifteenHundred();
  }

  /** A price of a million and a half would be read as 1500. */
  lemma ParsePriceMillionExample()
    ensures ParsePrice("₦1,500,000") == Finite(1500)
  {
    assert "₦1,500,000" == [Naira] + "1" + [','] + "500" + [','] + "000";
    ParsePriceStopsAtSecondSeparator("1", "500", "000");
    FifteenHundred();
  }

  lemma FifteenHundred()
    ensures "1" + "500" == "1500" && DigitsValue("1500", 10) == 1500
  {
    var d := "1500";
    assert d[..3] == "150" && d[..3][..2] == "15" && d[..3][..2][..1] == "1";
    assert DigitsValue("1", 10) == 1;
    assert DigitsValue("15", 10) == 15;
    assert DigitsValue("150", 10) == 150;
  }
}
