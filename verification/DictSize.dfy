/** Sizes of Lua shared dictionaries: read from the configuration and printed into the template. */
module DictSize {
  import opened Decimal
  import opened Words

  /** strconv.Atoi on a string of digits: out of range it yields the largest int. */
  function Atoi(s: string): int
    requires IsNumeral(s)
  {
    if Read(s) > MAX_INT then MAX_INT else Read(s)
  }

  predicate IsUnit(c: char) {
    c == 'k' || c == 'K' || c == 'm' || c == 'M'
  }

  /** The number of digits before the unit, when the string is digits with an optional unit. */
  function UnitAt(s: string): (n: nat)
    ensures n <= |s|
  {
    if s != "" && IsUnit(s[|s| - 1]) then |s| - 1 else |s|
  }

  function DictStrToKb(s: string): int {
    var n := UnitAt(s);
    if !IsNumeral(s[..n]) then -1
    else
      var size := Atoi(s[..n]);
      if n == |s| || s[n] == 'm' || s[n] == 'M' then Wrap(size * 1024) else size
  }

  /** fmt's %d, also for negative numbers. */
  function PrintInt(n: int): string {
    if n >= 0 then Print(n) else "-" + Print(-n)
  }

  /** Go's division truncates toward zero. */
  function TruncDiv(n: int, d: int): int
    requires d > 0
  {
    if n >= 0 then n / d else -((-n) / d)
  }

  function DictKbToStr(n: int): string {
    if n % 1024 == 0 then PrintInt(TruncDiv(n, 1024)) + "M" else PrintInt(n) + "K"
  }

  lemma ReadsNumeral(digits: nat, unit: char)
    requires unit == 'M' || unit == 'K'
    requires digits <= MAX_INT && (unit == 'M' ==> digits * 1024 <= MAX_INT)
    ensures DictStrToKb(Print(digits) + [unit]) == if unit == 'M' then digits * 1024 else digits
  {
    var s := Print(digits) + [unit];
    assert s[|s| - 1] == unit && s[..|s| - 1] == Print(digits);
    ReadPrint(digits);
  }

  lemma RejectsSign(n: nat, unit: char)
    ensures DictStrToKb("-" + Print(n) + [unit]) == -1
  {
    var s := "-" + Print(n) + [unit];
    assert s[0] == '-' && !IsDigit('-');
    assert UnitAt(s) >= 1 && s[..UnitAt(s)][0] == '-';
  }

  /** Printing and reading back: every int comes back unchanged exactly when it is not below -1.  (No negative
      size can be read; -1 is also the answer for a malformed string.) */
  lemma RoundTrip(n: int)
    requires -MAX_INT - 1 <= n <= MAX_INT
    ensures DictStrToKb(DictKbToStr(n)) == n <==> n >= -1
  {
    if n >= 0 {
      if n % 1024 == 0 {
        ReadsNumeral(n / 1024, 'M');
      } else {
        ReadsNumeral(n, 'K');
      }
    } else if n % 1024 == 0 {
      assert (-n) % 1024 == 0 && TruncDiv(n, 1024) < 0;
      RejectsSign(-TruncDiv(n, 1024), 'M');
    } else {
      RejectsSign(-n, 'K');
    }
  }

  /** How a size is printed: in megabytes if it is a whole number of them, and otherwise in kilobytes. */
  lemma PrintedIn(n: nat)
    ensures DictKbToStr(1024 * n) == Print(n) + "M"
    ensures n % 1024 != 0 ==> DictKbToStr(n) == Print(n) + "K"
  {
    WholeMegabytes(n);
  }

  lemma WholeMegabytes(n: nat)
    ensures (1024 * n) % 1024 == 0 && TruncDiv(1024 * n, 1024) == n
  {
  }

  /** A negative size is printed as the positive one, with a sign. */
  lemma PrintedNegative(n: int)
    requires n > 0
    ensures DictKbToStr(-n) == "-" + DictKbToStr(n)
  {
    SameRemainder(n);
    assert "-" + (Print(n) + "K") == "-" + Print(n) + "K";
    assert n % 1024 == 0 ==> "-" + (Print(n / 1024) + "M") == "-" + Print(n / 1024) + "M";
  }

  lemma SameRemainder(n: int)
    requires n > 0
    ensures (-n) % 1024 == 0 <==> n % 1024 == 0
    ensures TruncDiv(-n, 1024) == -TruncDiv(n, 1024)
  {
  }

  /** A size string that is accepted: a numeral with an optional unit. */
  predicate Accepted(s: string) {
    IsNumeral(s[..UnitAt(s)])
  }

  /** The string is `n` digits, and then nothing or one of the letters k, K, m, M. */
  predicate DigitsThenUnit(s: string, n: nat) {
    && 0 < n <= |s| && (forall i | 0 <= i < n :: '0' <= s[i] <= '9')
    && (n == |s| || (n == |s| - 1 && (s[n] == 'k' || s[n] == 'K' || s[n] == 'm' || s[n] == 'M')))
  }

  lemma UnitAfterDigits(s: string, n: nat)
    requires DigitsThenUnit(s, n)
    ensures UnitAt(s) == n && Accepted(s)
  {
    assert n == |s| ==> '0' <= s[|s| - 1] <= '9';
    assert forall i | 0 <= i < n :: IsDigit(s[..n][i]);
  }

  /** Exactly such strings are accepted. */
  lemma AcceptedIff(s: string)
    ensures Accepted(s) <==> exists n: nat :: DigitsThenUnit(s, n)
  {
    if n: nat :| DigitsThenUnit(s, n) {
      UnitAfterDigits(s, n);
    }
    if Accepted(s) {
      var n := UnitAt(s);
      assert forall i | 0 <= i < n :: IsDigit(s[..n][i]) && s[..n][i] == s[i];
      assert DigitsThenUnit(s, n);
    }
  }

  lemma ReadsUnit(digits: nat, unit: char)
    requires 1024 * digits <= MAX_INT && IsUnit(unit)
    ensures DictStrToKb(Print(digits) + [unit]) == if unit == 'm' || unit == 'M' then 1024 * digits else digits
  {
    var s := Print(digits) + [unit];
    assert s[..|s| - 1] == Print(digits) && s[|s| - 1] == unit;
    ReadPrint(digits);
  }

  /** A number is read in kilobytes for k and K, and in megabytes for m, M and no letter. */
  lemma ReadIn(digits: nat)
    requires 1024 * digits <= MAX_INT
    ensures DictStrToKb(Print(digits) + "k") == DictStrToKb(Print(digits) + "K") == digits
    ensures DictStrToKb(Print(digits) + "m") == DictStrToKb(Print(digits) + "M") == 1024 * digits
    ensures DictStrToKb(Print(digits)) == 1024 * digits
  {
    ReadsUnit(digits, 'k');
    ReadsUnit(digits, 'K');
    ReadsUnit(digits, 'm');
    ReadsUnit(digits, 'M');
    ReadPrint(digits);
    assert Print(digits)[..|Print(digits)|] == Print(digits);
  }

  /** The number of kilobytes that an accepted string means; megabytes are the default. */
  function Meant(s: string): nat
    requires Accepted(s)
  {
    var n := UnitAt(s);
    if n == |s| || s[n] == 'm' || s[n] == 'M' then 1024 * Read(s[..n]) else Read(s[..n])
  }

  /** An accepted string is read as what it means exactly when that is an int. */
  lemma ReadsWhatIsMeant(s: string)
    requires Accepted(s)
    ensures DictStrToKb(s) == Meant(s) <==> Meant(s) <= MAX_INT
  {
    if Meant(s) <= MAX_INT {
      assert Read(s[..UnitAt(s)]) <= MAX_INT;
    } else {
      assert DictStrToKb(s) <= MAX_INT;
    }
  }

  /** Reading, printing and reading again gives the size that is meant exactly when that is an int; a string that is
      not accepted is read as -1.  Whatever was read comes back unless it is below -1. */
  lemma ReadPrintRead(s: string)
    ensures Accepted(s) ==> (DictStrToKb(DictKbToStr(DictStrToKb(s))) == Meant(s) <==> Meant(s) <= MAX_INT)
    ensures !Accepted(s) ==> DictStrToKb(s) == -1
    ensures DictStrToKb(DictKbToStr(DictStrToKb(s))) == DictStrToKb(s) <==> DictStrToKb(s) >= -1
  {
    RoundTrip(DictStrToKb(s));
    if Accepted(s) {
      ReadsWhatIsMeant(s);
      if Meant(s) <= MAX_INT {
        RoundTrip(Meant(s));
      } else {
        assert DictStrToKb(DictKbToStr(DictStrToKb(s))) <= MAX_INT;
      }
    }
  }

  /** What a number of megabytes is read as wraps around. */
  lemma ReadingWraps(digits: nat)
    requires digits <= MAX_INT
    ensures DictStrToKb(Print(digits) + "M") == Wrap(1024 * digits)
  {
    ReadsDigits(digits, "M");
  }

  /** Up to 2^64 kilobytes a size that does not fit is read as a negative number, which is rejected later on. */
  lemma ReadingOverflows(digits: nat)
    requires MAX_INT < digits * 1024 < TWO_64
    ensures DictStrToKb(Print(digits) + "M") == digits * 1024 - TWO_64 < 0
  {
    ReadingWraps(digits);
  }

  lemma ReadsDigits(digits: nat, unit: string)
    requires unit == "M" || unit == "K"
    ensures var s := Print(digits) + unit;
            UnitAt(s) == |s| - 1 && s[..UnitAt(s)] == Print(digits) && Read(s[..UnitAt(s)]) == digits
  {
    var s := Print(digits) + unit;
    assert s[|s| - 1] == unit[0] && s[..|s| - 1] == Print(digits);
    ReadPrint(digits);
  }

  /** Beyond it can be read as any small size: strings that mean 2^64 kilobytes and more are accepted as k megabytes. */
  lemma HugeReadAsSmall(k: nat, turns: nat)
    requires k < 0x10_0000_0000_0000 && 0 < turns <= 256
    ensures var s := Print(0x40_0000_0000_0000 * turns + k) + "M";
            Accepted(s) && Meant(s) > MAX_INT && DictStrToKb(s) == 1024 * k
  {
    var digits := 0x40_0000_0000_0000 * turns + k;
    ReadsDigits(digits, "M");
    ReadingWraps(digits);
    assert 1024 * digits == TWO_64 * turns + 1024 * k;
    WrapTurns(1024 * k, turns);
  }

  lemma {:induction false} WrapTurns(x: nat, turns: nat)
    requires x <= MAX_INT
    ensures Wrap(TWO_64 * turns + x) == x
  {
    if turns > 0 {
      WrapTurns(x, turns - 1);
      assert (TWO_64 * (turns - 1) + x + TWO_64) % TWO_64 == (TWO_64 * (turns - 1) + x) % TWO_64;
    }
  }

  /** A numeral beyond the largest int is taken for the largest int: as kilobytes that is the size, as megabytes it
      wraps around to a negative number, which is rejected. */
  lemma ReadingClamps(digits: nat)
    requires digits > MAX_INT
    ensures DictStrToKb(Print(digits) + "K") == MAX_INT
    ensures DictStrToKb(Print(digits) + "M") == -1024
  {
    ReadsDigits(digits, "K");
    ReadsDigits(digits, "M");
  }
}
