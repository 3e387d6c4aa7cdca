/**
 * Version 7 UUIDs (section 5.7 of RFC 9562): the minter with its 16-bit counter, the shape check, and how
 * far the uniqueness of minted identifiers reaches.
 */
module UuidV7 {
  import opened Prelude

  const DIGITS := "0123456789abcdef"

  predicate IsHexDigit(c: char) {
    '0' <= c <= '9' || 'a' <= c <= 'f' || 'A' <= c <= 'F'
  }

  function HexDigit(d: nat): (c: char)
    requires d < 16
    ensures IsHexDigit(c)
  {
    DIGITS[d]
  }

  function Pow16(width: nat): nat {
    if width == 0 then 1 else 16 * Pow16(width - 1)
  }

  /** A number in lower-case hexadecimal, padded with zeros to a width it fits in. */
  function Hex(n: nat, width: nat): (text: string)
    requires n < Pow16(width)
    ensures |text| == width && forall i :: 0 <= i < width ==> IsHexDigit(text[i])
    decreases width
  {
    if width == 0 then "" else Hex(n / 16, width - 1) + [HexDigit(n % 16)]
  }

  function DigitValue(c: char): nat {
    if '0' <= c <= '9' then c as nat - '0' as nat
    else if 'a' <= c <= 'f' then c as nat - 'a' as nat + 10
    else 0
  }

  /** The number that hexadecimal digits stand for. */
  function HexValue(text: string): nat {
    if text == "" then 0 else 16 * HexValue(text[..|text| - 1]) + DigitValue(text[|text| - 1])
  }

  lemma {:induction false} HexRoundTrip(n: nat, width: nat)
    requires n < Pow16(width)
    ensures HexValue(Hex(n, width)) == n
  {
    if width > 0 {
      HexStep(n, width);
      hide Hex;
      HexRoundTrip(n / 16, width - 1);
      DigitRoundTrip(n % 16);
      hide DigitValue, HexDigit, HexValue, Pow16;
      HexValueAppend(Hex(n / 16, width - 1), HexDigit(n % 16));
    }
  }

  lemma HexStep(n: nat, width: nat)
    requires n < Pow16(width) && width > 0
    ensures n / 16 < Pow16(width - 1) && Hex(n, width) == Hex(n / 16, width - 1) + [HexDigit(n % 16)]
  {
    hide HexDigit;
  }

  lemma DigitRoundTrip(d: nat)
    requires d < 16
    ensures DigitValue(HexDigit(d)) == d
  {
    if d < 10 {
      assert DIGITS[d] as nat == '0' as nat + d;
    } else {
      assert DIGITS[d] as nat == 'a' as nat + d - 10;
    }
  }

  lemma HexValueAppend(text: string, c: char)
    ensures HexValue(text + [c]) == 16 * HexValue(text) + DigitValue(c)
  {
    hide DigitValue;
    assert (text + [c])[..|text|] == text;
  }

  lemma HexValueConcat(high: string, low: string)
    requires |low| == 4
    ensures HexValue(high + low) == 0x1_0000 * HexValue(high) + HexValue(low)
  {
    hide HexValue, DigitValue;
    HexValueFour(high, low[0], low[1], low[2], low[3]);
    HexValueFour("", low[0], low[1], low[2], low[3]);
    assert low == [low[0], low[1], low[2], low[3]] && "" + low == low;
    EmptyHexValue();
  }

  lemma EmptyHexValue()
    ensures HexValue("") == 0
  {
  }

  lemma HexValueFour(high: string, a: char, b: char, c: char, d: char)
    ensures HexValue(high + [a, b, c, d])
         == 0x1_0000 * HexValue(high) + 0x1000 * DigitValue(a) + 0x100 * DigitValue(b) + 0x10 * DigitValue(c) + DigitValue(d)
  {
    hide HexValue, DigitValue;
    HexValueAppend(high, a);
    HexValueAppend(high + [a], b);
    HexValueAppend(high + [a] + [b], c);
    HexValueAppend(high + [a] + [b] + [c], d);
    assert high + [a, b, c, d] == high + [a] + [b] + [c] + [d];
  }

  /* ---------- minting ---------- */

  const WORD: nat := 0x1_0000_0000_0000_0000
  const TIME: nat := 0x1_0000_0000_0000

  /** The identifier for a 64-bit clock reading and a 12-bit count. */
  function Uuid(millis: nat, count: nat): string
    requires millis < WORD && count < 0x1000
  {
    Layout(millis % TIME, count, Random(millis, count))
  }

  /** The last twelve digits: the reading shifted by the count, cut to 64 and then to 48 bits. */
  function Random(millis: nat, count: nat): (bits: nat)
    ensures bits < TIME
  {
    (millis * 0x1000 % WORD + count) % TIME
  }

  function Layout(time: nat, count: nat, random: nat): string
    requires time < TIME && count < 0x1000 && random < TIME
  {
    Widths();
    Hex(time / 0x1_0000, 8) + "-" + Hex(time % 0x1_0000, 4) + "-7" + Hex(count, 3) + "-8" + Hex(count, 3) + "-"
    + Hex(random, 12)
  }

  lemma Widths()
    ensures Pow16(3) == 0x1000 && Pow16(4) == 0x1_0000 && Pow16(8) == 0x1_0000_0000 && Pow16(12) == TIME
  {
    assert Pow16(1) == 16 && Pow16(2) == 0x100 && Pow16(3) == 0x1000 && Pow16(4) == 0x1_0000;
    assert Pow16(5) == 0x10_0000 && Pow16(6) == 0x100_0000 && Pow16(7) == 0x1000_0000 && Pow16(8) == 0x1_0000_0000;
    assert Pow16(9) == 0x10_0000_0000 && Pow16(10) == 0x100_0000_0000 && Pow16(11) == 0x1000_0000_0000;
  }

  predicate IsUuidV7(value: string) {
    |value| == 36
    && value[8] == '-' && value[13] == '-' && value[18] == '-' && value[23] == '-'
    && value[14] == '7'
    && (value[19] == '8' || value[19] == '9' || value[19] == 'a' || value[19] == 'b')
    && forall i :: 0 <= i < |value| ==> i in {8, 13, 18, 23} || IsHexDigit(value[i])
  }

  /** A shared counter of 16 bits, of which an identifier shows twelve. */
  class Minter {
    var counter: nat

    ghost predicate Valid()
      reads this
    {
      counter < 0x1_0000
    }

    constructor ()
      ensures Valid() && counter == 0
    {
      counter := 0;
    }

    /** Mints for a clock reading; without one (a clock before the epoch) the counter is left alone. */
    method Mint(clock: Option<nat>) returns (r: Option<string>)
      requires Valid()
      modifies this
      ensures Valid()
      ensures clock.None? ==> r == None && counter == old(counter)
      ensures clock.Some? ==> r == Some(Uuid(clock.value % WORD, old(counter) % 0x1000))
      ensures clock.Some? ==> counter == (old(counter) + 1) % 0x1_0000
    {
      match clock
      case None => return None;
      case Some(reading) =>
        var millis := reading % WORD;
        var count := counter % 0x1000;
        counter := (counter + 1) % 0x1_0000;
        return Some(Uuid(millis, count));
    }
  }

  /* ---------- what an identifier shows ---------- */

  lemma UuidParts(millis: nat, count: nat)
    requires millis < WORD && count < 0x1000
    ensures var u := Uuid(millis, count);
            && Pow16(12) == TIME && Pow16(8) == 0x1_0000_0000 && Pow16(4) == 0x1_0000 && Pow16(3) == 0x1000
            && |u| == 36
            && u[..8] == Hex(millis % TIME / 0x1_0000, 8) && u[8] == '-'
            && u[9..13] == Hex(millis % TIME % 0x1_0000, 4) && u[13] == '-' && u[14] == '7'
            && u[15..18] == Hex(count, 3) && u[18] == '-' && u[19] == '8'
            && u[20..23] == Hex(count, 3) && u[23] == '-'
            && u[24..] == Hex(Random(millis, count), 12)
  {
    hide Hex, Pow16, Random;
    Widths();
  }

  /**
   * Every minted identifier is a version 7 UUID in small letters; it carries the low 48 bits of the clock, the
   * count twice, and the low 36 bits of the clock with the count behind them.
   */
  lemma MintedIsUuidV7(millis: nat, count: nat)
    requires millis < WORD && count < 0x1000
    ensures IsUuidV7(Uuid(millis, count))
    ensures var u := Uuid(millis, count);
            && HexValue(u[..8] + u[9..13]) == millis % TIME && HexValue(u[15..18]) == count
            && u[19] == '8' && HexValue(u[20..23]) == count && HexValue(u[24..]) == millis % 0x10_0000_0000 * 0x1000 + count
    ensures forall c :: c in Uuid(millis, count) ==> c in "-0123456789abcdef"
  {
    Shape(millis, count);
    TailIs(millis, count);
    Letters(millis, count);
    hide Hex, Pow16, Uuid, HexValue, IsUuidV7, Random;
    UuidParts(millis, count);
    var u := Uuid(millis, count);
    var time := millis % TIME;
    HexRoundTrip(time / 0x1_0000, 8);
    HexRoundTrip(time % 0x1_0000, 4);
    HexRoundTrip(count, 3);
    HexRoundTrip(Random(millis, count), 12);
    HexValueConcat(u[..8], u[9..13]);
  }

  lemma TailIs(millis: nat, count: nat)
    requires count < 0x1000
    ensures Random(millis, count) == millis % 0x10_0000_0000 * 0x1000 + count
  {
    LowBits(millis, count);
    var m := millis % TIME;
    assert TIME == 0x10_0000_0000 * 0x1000;
    assert m == 0x10_0000_0000 * (m / 0x10_0000_0000) + m % 0x10_0000_0000;
    assert millis == TIME * (millis / TIME) + m;
    SmallRemainder(millis, m);
    Shifted(m % 0x10_0000_0000 * 0x1000 + count, m / 0x10_0000_0000);
  }

  lemma SmallRemainder(millis: nat, m: nat)
    requires m == millis % TIME
    ensures m % 0x10_0000_0000 == millis % 0x10_0000_0000
  {
    var k := 0x1000 * (millis / TIME);
    assert millis == 0x10_0000_0000 * k + m;
  }

  lemma {:induction false} SmallLetters(n: nat, width: nat)
    requires n < Pow16(width)
    ensures forall c :: c in Hex(n, width) ==> c in "-0123456789abcdef"
  {
    if width > 0 {
      HexStep(n, width);
      SmallLetters(n / 16, width - 1);
      assert HexDigit(n % 16) in "-0123456789abcdef";
      hide Hex, HexDigit, Pow16;
    }
  }

  lemma Letters(millis: nat, count: nat)
    requires millis < WORD && count < 0x1000
    ensures forall c :: c in Uuid(millis, count) ==> c in "-0123456789abcdef"
  {
    hide Hex, Pow16, Random;
    Widths();
    var time := millis % TIME;
    SmallLetters(time / 0x1_0000, 8);
    SmallLetters(time % 0x1_0000, 4);
    SmallLetters(count, 3);
    SmallLetters(Random(millis, count), 12);
  }

  /** All characters of a string are hexadecimal digits. */
  ghost predicate AllHex(text: string) {
    forall i :: 0 <= i < |text| ==> IsHexDigit(text[i])
  }

  lemma Shape(millis: nat, count: nat)
    requires millis < WORD && count < 0x1000
    ensures IsUuidV7(Uuid(millis, count))
  {
    assert IsHexDigit('7') && IsHexDigit('8');
    hide Hex, Pow16, Random, IsHexDigit, Uuid;
    UuidParts(millis, count);
    var u := Uuid(millis, count);
    assert AllHex(u[..8]) && AllHex(u[9..13]) && AllHex(u[15..18]) && AllHex(u[20..23]) && AllHex(u[24..]);
    forall i | 0 <= i < 36 && i !in {8, 13, 18, 23} ensures IsHexDigit(u[i]) {
      PartOf(u, i);
    }
  }

  lemma PartOf(u: string, i: nat)
    requires |u| == 36 && i < 36 && i !in {8, 13, 18, 23} && IsHexDigit(u[14]) && IsHexDigit(u[19])
    requires AllHex(u[..8]) && AllHex(u[9..13]) && AllHex(u[15..18]) && AllHex(u[20..23]) && AllHex(u[24..])
    ensures IsHexDigit(u[i])
  {
    hide IsHexDigit;
    if i < 8 {
      assert u[i] == u[..8][i];
    } else if i < 13 {
      assert u[i] == u[9..13][i - 9];
    } else if 15 <= i < 18 {
      assert u[i] == u[15..18][i - 15];
    } else if 20 <= i < 23 {
      assert u[i] == u[20..23][i - 20];
    } else if i > 23 {
      assert u[i] == u[24..][i - 24];
    }
  }

  /** Two readings give the same identifier exactly when they agree on the low 48 bits and on the count. */
  lemma UuidsCollideExactly(m1: nat, c1: nat, m2: nat, c2: nat)
    requires m1 < WORD && m2 < WORD && c1 < 0x1000 && c2 < 0x1000
    ensures Uuid(m1, c1) == Uuid(m2, c2) <==> m1 % TIME == m2 % TIME && c1 == c2
  {
    MintedIsUuidV7(m1, c1);
    MintedIsUuidV7(m2, c2);
    hide Layout, Random, IsUuidV7, HexValue;
    if m1 % TIME == m2 % TIME && c1 == c2 {
      SameRandom(m1, m2, c1);
    }
  }

  /** The tail of an identifier depends on the low 36 bits of the clock only. */
  lemma SameRandom(m1: nat, m2: nat, count: nat)
    requires m1 % TIME == m2 % TIME
    ensures Random(m1, count) == Random(m2, count)
  {
    LowBits(m1, count);
    LowBits(m2, count);
  }

  lemma LowBits(m: nat, count: nat)
    ensures Random(m, count) == (m % TIME * 0x1000 + count) % TIME
  {
    var x := m * 0x1000;
    assert WORD == TIME * 0x1_0000;
    assert x == WORD * (x / WORD) + x % WORD;
    assert m == TIME * (m / TIME) + m % TIME;
    Shifted(x % WORD + count, 0x1_0000 * (x / WORD));
    Shifted(m % TIME * 0x1000 + count, 0x1000 * (m / TIME));
  }

  lemma Shifted(x: nat, k: nat)
    ensures (x + TIME * k) % TIME == x % TIME
  {
  }

  /* ---------- runs ---------- */

  /** The counter after a number of mints, each of which does what `Minter.Mint` does to it. */
  function CounterAfter(start: nat, mints: nat): nat {
    if mints == 0 then start else (CounterAfter(start, mints - 1) + 1) % 0x1_0000
  }

  /** The `i`-th identifier of a run that starts at a counter value, one clock reading a mint. */
  function Minted(start: nat, clocks: seq<nat>, i: nat): string
    requires start < 0x1_0000 && i < |clocks|
  {
    Uuid(clocks[i] % WORD, CounterAfter(start, i) % 0x1000)
  }

  lemma {:induction false} CounterWraps(start: nat, mints: nat)
    requires start < 0x1_0000
    ensures CounterAfter(start, mints) == (start + mints) % 0x1_0000
  {
    if mints > 0 {
      CounterWraps(start, mints - 1);
    }
  }

  /**
   * Uniqueness over whole runs, exactly: two mints of a run collide if and only if they lie a multiple of
   * 4096 apart and the clock shows the same low 48 bits, through every wrap of the counter.
   */
  lemma MintsCollideExactly(start: nat, clocks: seq<nat>, i: nat, j: nat)
    requires start < 0x1_0000 && i < j < |clocks|
    ensures Minted(start, clocks, i) == Minted(start, clocks, j)
       <==> (j - i) % 0x1000 == 0 && clocks[i] % TIME == clocks[j] % TIME
  {
    CountsAgree(start, i, j);
    CounterWraps(start, i);
    CounterWraps(start, j);
    hide Uuid, CounterAfter;
    UuidsCollideExactly(clocks[i] % WORD, (start + i) % 0x1_0000 % 0x1000, clocks[j] % WORD, (start + j) % 0x1_0000 % 0x1000);
    LowOfWord(clocks[i]);
    LowOfWord(clocks[j]);
  }

  lemma LowOfWord(x: nat)
    ensures x % WORD % TIME == x % TIME
  {
    assert x == WORD * (x / WORD) + x % WORD && WORD == TIME * 0x1_0000;
    Shifted(x % WORD, 0x1_0000 * (x / WORD));
  }

  /** The wrap of the counter does not show in the twelve bits used. */
  lemma CountsAgree(start: nat, i: nat, j: nat)
    requires i < j
    ensures (start + i) % 0x1_0000 % 0x1000 == (start + j) % 0x1_0000 % 0x1000 <==> (j - i) % 0x1000 == 0
  {
    assert (start + i) % 0x1_0000 % 0x1000 == (start + i) % 0x1000;
    assert (start + j) % 0x1_0000 % 0x1000 == (start + j) % 0x1000;
  }

  /** So any 4096 consecutive mints are pairwise distinct whatever the clock does. */
  lemma WindowIsDistinct(start: nat, clocks: seq<nat>, first: nat)
    requires start < 0x1_0000
    ensures forall i, j :: first <= i < j < |clocks| && j < first + 0x1000 ==> Minted(start, clocks, i) != Minted(start, clocks, j)
  {
    hide Minted;
    forall i, j | first <= i < j < |clocks| && j < first + 0x1000 ensures Minted(start, clocks, i) != Minted(start, clocks, j) {
      MintsCollideExactly(start, clocks, i, j);
    }
  }
}
