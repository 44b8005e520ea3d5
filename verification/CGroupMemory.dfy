/** `normalize_memory_values` of tools/optkit-setenv/cgroup.cc: memory sizes are rewritten to bytes. */
module CGroupMemory {
  import opened Wrappers
  import opened Strings
  import opened Decimal

  const TWO63: int := 0x8000_0000_0000_0000
  const TWO64: int := 0x1_0000_0000_0000_0000

  function UpperChar(c: char): char {
    if 'a' <= c <= 'z' then (c - 'a') + 'A' else c
  }

  /** `std::transform` with `toupper`. */
  function Upper(s: string): (r: string)
    ensures |r| == |s|
  {
    if s == "" then "" else Upper(s[..|s| - 1]) + [UpperChar(s[|s| - 1])]
  }

  /** The power of 1024 that a suffix in upper case stands for. */
  function Power(suffix: string): Option<nat> {
    if suffix == "KB" || suffix == "K" then Some(1)
    else if suffix == "MB" || suffix == "M" then Some(2)
    else if suffix == "GB" || suffix == "G" then Some(3)
    else if suffix == "TB" || suffix == "T" then Some(4)
    else if suffix == "B" then Some(0)
    else None
  }

  /** `value` times the multiplier of a suffix, which is 1024 to the power. */
  function Scaled(value: nat, power: nat): (r: nat)
    ensures r >= value
  {
    if power == 0 then value else 1024 * Scaled(value, power - 1)
  }

  /** A 64-bit signed product wraps around. */
  function Wrapped(x: int): int {
    (x + TWO63) % TWO64 - TWO63
  }

  /** `std::stoll` of a string of digits: throws when there are none, or when the value does not fit. */
  function Stoll(digits: string): Result<nat>
    requires AllDigits(digits)
  {
    if digits == "" then Err("invalid_argument")
    else if ValueOf(digits) >= TWO63 then Err("out_of_range")
    else Ok(ValueOf(digits))
  }

  /** One size: number and suffix. */
  function Converted(trimmed: string): Result<string> {
    var split := DigitsEnd(trimmed, 0);
    assert trimmed[0..split] == trimmed[..split];
    var value, power := Stoll(trimmed[..split]), Power(Upper(trimmed[split..]));
    if value.Err? then Err(value.error)
    else if power.None? then Err("Unknown memory suffix")
    else Ok(ToString(Wrapped(Scaled(value.value, power.value))))
  }

  /** `memory_to_bytes`; an exception is an error. */
  function MemoryToBytes(val: string): Result<string> {
    if val == "max" || val == "" then Ok(val)
    else
      var trimmed := Trim(val, ALL_BLANKS);
      if AllDigits(trimmed) then Ok(trimmed) else Converted(trimmed)
  }

  /** The fields after the assignments in turn: the first field that throws and all behind it stay. */
  function Normalized(fields: seq<string>): (r: seq<string>)
    ensures |r| == |fields|
  {
    if fields == [] || MemoryToBytes(fields[0]).Err? then fields
    else [MemoryToBytes(fields[0]).value] + Normalized(fields[1..])
  }

  // The seven size fields of the memory settings.
  const MAX := 0
  const HIGH := 1
  const LOW := 2
  const MIN := 3
  const SWAP_MAX := 4
  const SWAP_HIGH := 5
  const ZSWAP_MAX := 6

  class Memory {
    const fields: array<string>

    constructor (values: seq<string>)
      requires |values| == 7
      ensures fresh(fields) && fields[..] == values
    {
      fields := new string[7](i requires 0 <= i < 7 => values[i]);
    }

    /** The body of the try block; the exception of the field that throws ends it. */
    method NormalizeMemoryValues()
      requires fields.Length == 7
      modifies fields
      ensures fields[..] == Normalized(old(fields[..]))
    {
      ghost var all := fields[..];
      Start(all);
      var thrown := Convert(MAX, all);
      if thrown { return; }
      thrown := Convert(HIGH, all);
      if thrown { return; }
      thrown := Convert(LOW, all);
      if thrown { return; }
      thrown := Convert(MIN, all);
      if thrown { return; }
      thrown := Convert(SWAP_MAX, all);
      if thrown { return; }
      thrown := Convert(SWAP_HIGH, all);
      if thrown { return; }
      thrown := Convert(ZSWAP_MAX, all);
      if thrown { return; }
      Finish(all, fields[..]);
    }

    /** One assignment of the try block. */
    method Convert(k: nat, ghost all: seq<string>) returns (thrown: bool)
      requires k < fields.Length && Reached(all, fields[..], k)
      modifies fields
      ensures if thrown then fields[..] == Normalized(all) else Reached(all, fields[..], k + 1)
    {
      var r := ToBytes(k, all);
      thrown := r.Err?;
      if r.Ok? {
        ghost var next := fields[..][k := r.value];
        fields[k] := r.value;
        assert fields[..] == next;
      }
    }

    /** The conversion of one field, with what an exception and what the assignment leave. */
    method ToBytes(k: nat, ghost all: seq<string>) returns (r: Result<string>)
      requires k < fields.Length && Reached(all, fields[..], k)
      ensures r.Err? ==> Normalized(all) == fields[..]
      ensures r.Ok? ==> Reached(all, fields[..][k := r.value], k + 1)
    {
      Continue(all, fields[..], k);
      r := MemoryToBytes(fields[k]);
    }
  }

  ghost predicate Converts(x: string, y: string) {
    MemoryToBytes(x) == Ok(y)
  }

  /** The fields below `k` are converted, the others are still as they were. */
  ghost predicate Reached(all: seq<string>, now: seq<string>, k: nat) {
    && k <= |all| == |now|
    && (forall j :: 0 <= j < k ==> Converts(all[j], now[j]))
    && (forall j :: k <= j < |all| ==> now[j] == all[j])
  }

  lemma Start(all: seq<string>)
    ensures Reached(all, all, 0)
  {
  }

  /** The normalisation stops at the first field that throws. */
  lemma {:induction false} Stopped(all: seq<string>, now: seq<string>, k: nat)
    requires Reached(all, now, k) && (k < |all| ==> MemoryToBytes(all[k]).Err?)
    ensures now == Normalized(all)
  {
    hide MemoryToBytes;
    if k > 0 {
      assert Converts(all[0], now[0]);
      Stopped(all[1..], now[1..], k - 1);
      assert now == [now[0]] + now[1..];
    } else {
      assert now == all;
    }
  }

  lemma Finish(all: seq<string>, now: seq<string>)
    requires Reached(all, now, |all|)
    ensures now == Normalized(all)
  {
    Stopped(all, now, |all|);
  }

  lemma Continue(all: seq<string>, now: seq<string>, k: nat)
    requires k < |now| && Reached(all, now, k)
    ensures var r := MemoryToBytes(now[k]);
            if r.Err? then Normalized(all) == now else Reached(all, now[k := r.value], k + 1)
  {
    var r := MemoryToBytes(now[k]);
    if r.Err? {
      Stopped(all, now, k);
    } else {
      assert Converts(all[k], r.value);
    }
  }

  lemma NormalizedCons(x: string, rest: seq<string>)
    ensures Normalized([x] + rest)
         == if MemoryToBytes(x).Err? then [x] + rest else [MemoryToBytes(x).value] + Normalized(rest)
  {
    assert ([x] + rest)[1..] == rest;
  }

  // ---- Normalising twice -----------------------------------------------

  lemma TightTrims(s: string)
    requires Tight(s, ALL_BLANKS)
    ensures Trim(s, ALL_BLANKS) == s
  {
    TrimPadded("", s, "", ALL_BLANKS);
    assert "" + s + "" == s;
  }

  lemma DigitsKept(s: string)
    requires AllDigits(s)
    ensures MemoryToBytes(s) == Ok(s)
  {
    if s != "" {
      NoBlank(s[0]);
      NoBlank(s[|s| - 1]);
      TightTrims(s);
    }
  }

  lemma NoBlank(c: char)
    requires IsDigit(c)
    ensures c !in ALL_BLANKS
  {
  }

  lemma MinusRefused(s: string)
    requires s != "" && s[0] == '-'
    ensures Converted(s).Err?
  {
    assert DigitsEnd(s, 0) == 0;
    assert s[..0] == "";
  }

  lemma NegativeTight(s: string)
    requires |s| >= 2 && s[0] == '-' && IsDigit(s[|s| - 1])
    ensures Tight(s, ALL_BLANKS) && !AllDigits(s) && s != "max"
  {
    NoBlank(s[|s| - 1]);
    assert '-' !in ALL_BLANKS && !IsDigit(s[0]);
  }

  /** A negative text, which only an overflowing product can leave, makes the conversion throw. */
  lemma NegativeRefused(s: string)
    requires |s| >= 2 && s[0] == '-' && IsDigit(s[|s| - 1])
    ensures MemoryToBytes(s).Err?
  {
    NegativeTight(s);
    TightTrims(s);
    MinusRefused(s);
  }

  /** What a conversion gives is kept by the next one, or makes it throw; either way the text stays. */
  lemma ConvertedStays(val: string)
    requires MemoryToBytes(val).Ok?
    ensures var once := MemoryToBytes(val).value;
            MemoryToBytes(once).Err? || MemoryToBytes(once) == Ok(once)
  {
    var once := MemoryToBytes(val).value;
    if val != "max" && val != "" {
      var trimmed := Trim(val, ALL_BLANKS);
      if AllDigits(trimmed) {
        DigitsKept(trimmed);
      } else {
        NumberStays(trimmed);
      }
    }
  }

  lemma NumberStays(trimmed: string)
    requires Converted(trimmed).Ok?
    ensures var once := Converted(trimmed).value;
            MemoryToBytes(once).Err? || MemoryToBytes(once) == Ok(once)
  {
    hide Wrapped;
    var split := DigitsEnd(trimmed, 0);
    assert trimmed[0..split] == trimmed[..split];
    var n := Wrapped(Scaled(Stoll(trimmed[..split]).value, Power(Upper(trimmed[split..])).value));
    if n >= 0 {
      DigitsKept(Digits(n));
    } else {
      var digits := Digits(-n);
      assert IsDigit(digits[|digits| - 1]);
      NegativeRefused("-" + digits);
    }
  }

  /** Normalising is idempotent on all fields, also when one of them throws part way. */
  lemma {:induction false} NormalizedTwice(fields: seq<string>)
    ensures Normalized(Normalized(fields)) == Normalized(fields)
  {
    if fields != [] && MemoryToBytes(fields[0]).Ok? {
      NormalizedTwice(fields[1..]);
      ConvertedStays(fields[0]);
      NormalizedCons(MemoryToBytes(fields[0]).value, Normalized(fields[1..]));
    }
  }

  // ---- What the bytes denote -------------------------------------------

  const UNITS: string := "KMGT"

  /** `s` is `unit` in any case. */
  predicate Spells(s: string, unit: string) {
    |s| == |unit| && forall i :: 0 <= i < |s| ==> UpperChar(s[i]) == unit[i]
  }

  /** Bytes, or a unit that stands for a power of 1024, with or without a B behind it. */
  predicate IsUnit(suffix: string, power: nat) {
    if power == 0 then Spells(suffix, "B")
    else power <= 4 && (Spells(suffix, [UNITS[power - 1]]) || Spells(suffix, [UNITS[power - 1], 'B']))
  }

  lemma {:induction false} UpperAt(s: string, i: nat)
    requires i < |s|
    ensures Upper(s)[i] == UpperChar(s[i])
  {
    if i < |s| - 1 {
      UpperAt(s[..|s| - 1], i);
    }
  }

  lemma SpellsUpper(s: string, unit: string)
    ensures Spells(s, unit) <==> Upper(s) == unit
  {
    forall i: nat | i < |s| ensures Upper(s)[i] == UpperChar(s[i]) {
      UpperAt(s, i);
    }
  }

  /** The suffixes that are understood are the units, each with its power. */
  lemma UnitIff(suffix: string, power: nat)
    ensures Power(Upper(suffix)) == Some(power) <==> IsUnit(suffix, power)
  {
    var upper := Upper(suffix);
    SpellsUpper(suffix, "B");
    if 1 <= power <= 4 {
      SpellsUpper(suffix, [UNITS[power - 1]]);
      SpellsUpper(suffix, [UNITS[power - 1], 'B']);
    }
    PowerIff(upper, power);
  }

  lemma PowerIff(upper: string, power: nat)
    ensures Power(upper) == Some(power)
            <==> if power == 0 then upper == "B"
                 else power <= 4 && (upper == [UNITS[power - 1]] || upper == [UNITS[power - 1], 'B'])
  {
    assert UNITS[0] == 'K' && UNITS[1] == 'M' && UNITS[2] == 'G' && UNITS[3] == 'T';
    assert |"KB"| == |"MB"| == |"GB"| == |"TB"| == 2;
    assert "KB"[0] == 'K' && "MB"[0] == 'M' && "GB"[0] == 'G' && "TB"[0] == 'T';
  }

  lemma UnitNoDigit(suffix: string, power: nat)
    requires IsUnit(suffix, power)
    ensures suffix != "" && !IsDigit(suffix[0])
  {
    assert forall c :: IsDigit(c) ==> UpperChar(c) == c;
  }

  /** The sizes that are understood: digits, then nothing or a known suffix in any case, with blanks around them. */
  predicate IsSize(val: string, digits: string, suffix: string, power: nat) {
    && Trim(val, ALL_BLANKS) == digits + suffix
    && digits != "" && AllDigits(digits)
    && if suffix == "" then power == 0 else IsUnit(suffix, power)
  }

  lemma SizeConverts(val: string, digits: string, suffix: string, power: nat)
    requires IsSize(val, digits, suffix, power)
    ensures MemoryToBytes(val)
         == if suffix == "" then Ok(digits)
            else if ValueOf(digits) >= TWO63 then Err("out_of_range")
            else Ok(ToString(Wrapped(Scaled(ValueOf(digits), power))))
  {
    hide Wrapped, Scaled, ToString, ValueOf, DigitsEnd, Trim, Upper, Power, IsUnit;
    var t := digits + suffix;
    NotSpecial(val, t);
    if suffix == "" {
      assert t == digits;
    } else {
      UnitIff(suffix, power);
      UnitNoDigit(suffix, power);
      assert "" + digits + suffix == t;
      DigitsEndBetween("", digits, suffix, 0);
      assert t[..|digits|] == digits && t[|digits|..] == suffix;
      assert !AllDigits(t) by { assert t[|digits|] == suffix[0]; }
    }
  }

  lemma TrimMax()
    ensures Trim("max", ALL_BLANKS) == "max"
  {
    TightTrims("max");
  }

  lemma NotSpecial(val: string, t: string)
    requires Trim(val, ALL_BLANKS) == t && t != "" && IsDigit(t[0])
    ensures val != "max" && val != ""
  {
    TrimMax();
  }

  /** The text denotes the number. */
  predicate Denotes(text: string, n: int) {
    AllDigits(text) && text != "" && ValueOf(text) == n
  }

  lemma DigitsDenote(n: nat, bytes: int)
    ensures Denotes(ToString(n), bytes) <==> n == bytes
  {
    DigitsRead(n);
  }

  lemma NegativeDenotesNothing(n: int, bytes: int)
    requires n < 0
    ensures !Denotes(ToString(n), bytes)
  {
    assert !IsDigit(ToString(n)[0]);
  }

  lemma WrappedDenotesIff(bytes: nat)
    ensures Denotes(ToString(Wrapped(bytes)), bytes) <==> bytes < TWO63
  {
    if Wrapped(bytes) >= 0 {
      DigitsDenote(Wrapped(bytes), bytes);
    } else {
      NegativeDenotesNothing(Wrapped(bytes), bytes);
    }
  }

  /** A size is converted to a text that denotes number times 1024^k exactly if and only if it has no suffix, and is
      kept, or that product is below 2^63. Beyond it the conversion throws, or its product wraps around. */
  lemma SizeDenotesIff(val: string, digits: string, suffix: string, power: nat)
    requires IsSize(val, digits, suffix, power)
    ensures var r, bytes := MemoryToBytes(val), Scaled(ValueOf(digits), power);
            r.Ok? && Denotes(r.value, bytes) <==> suffix == "" || bytes < TWO63
  {
    SizeConverts(val, digits, suffix, power);
    WrappedDenotesIff(Scaled(ValueOf(digits), power));
  }

  lemma {:induction false} ScaledBy(value: nat, power: nat, factor: nat)
    requires factor == Scaled(1, power)
    ensures Scaled(value, power) == value * factor
  {
    if power > 0 {
      ScaledBy(value, power - 1, Scaled(1, power - 1));
    }
  }

  lemma DigitsSnoc(n: nat, d: nat)
    requires n > 0 && d < 10
    ensures Digits(10 * n + d) == Digits(n) + [CharOf(d)]
  {
  }

  lemma Digits8388608()
    ensures Digits(8388608) == "8388608"
  {
    DigitsSnoc(8, 3);
    DigitsSnoc(83, 8);
    DigitsSnoc(838, 8);
    DigitsSnoc(8388, 6);
    DigitsSnoc(83886, 0);
    DigitsSnoc(838860, 8);
  }

  lemma TeraPower()
    ensures Scaled(1, 4) == 0x100_0000_0000
  {
    assert Scaled(1, 1) == 1024;
    assert Scaled(1, 2) == 0x10_0000;
    assert Scaled(1, 3) == 0x4000_0000;
  }

  lemma IsSizeT(digits: string)
    requires digits != "" && AllDigits(digits)
    ensures IsSize(digits + "T", digits, "T", 4)
  {
    NoBlank(digits[0]);
    TightTrims(digits + "T");
    assert UNITS[3] == 'T';
  }

  /** 8388608T is 2^63 bytes, and becomes a negative number. */
  lemma SizeWraps()
    ensures MemoryToBytes("8388608T") == Ok(ToString(-TWO63))
    ensures !Denotes(ToString(-TWO63), TWO63)
  {
    Digits8388608();
    DigitsRead(8388608);
    assert "8388608T" == Digits(8388608) + "T";
    IsSizeT(Digits(8388608));
    TeraPower();
    ScaledBy(8388608, 4, 0x100_0000_0000);
    SizeConverts("8388608T", Digits(8388608), "T", 4);
    NegativeDenotesNothing(-TWO63, TWO63);
  }

  // ---- Text by text ----------------------------------------------------

  /** A kilobyte has 1024 bytes, and so on. */
  lemma ScaledIs(value: nat)
    ensures Scaled(value, 0) == value
    ensures Scaled(value, 1) == 1024 * value
    ensures Scaled(value, 2) == 1048576 * value
    ensures Scaled(value, 3) == 1073741824 * value
    ensures Scaled(value, 4) == 1099511627776 * value
  {
    assert Scaled(value, 1) == 1024 * Scaled(value, 0);
    assert Scaled(value, 2) == 1024 * Scaled(value, 1);
    assert Scaled(value, 3) == 1024 * Scaled(value, 2);
    assert Scaled(value, 4) == 1024 * Scaled(value, 3);
  }

  lemma UpperIs(c: char)
    ensures UpperChar(c) == 'B' <==> c == 'b' || c == 'B'
    ensures UpperChar(c) == 'K' <==> c == 'k' || c == 'K'
    ensures UpperChar(c) == 'M' <==> c == 'm' || c == 'M'
    ensures UpperChar(c) == 'G' <==> c == 'g' || c == 'G'
    ensures UpperChar(c) == 'T' <==> c == 't' || c == 'T'
  {
  }

  lemma SpellsOne(s: string, unit: char, low: char)
    requires forall c :: UpperChar(c) == unit <==> c == low || c == unit
    ensures Spells(s, [unit]) <==> s == [low] || s == [unit]
  {
    if |s| == 1 {
      assert s == [s[0]] && (UpperChar(s[0]) == unit <==> s[0] == low || s[0] == unit);
    }
  }

  lemma SpellsTwo(s: string, unit: char, low: char)
    requires forall c :: UpperChar(c) == unit <==> c == low || c == unit
    ensures Spells(s, [unit, 'B']) <==> s in {[low, 'b'], [low, 'B'], [unit, 'b'], [unit, 'B']}
  {
    if |s| == 2 {
      UpperIs(s[1]);
      assert s == [s[0], s[1]] && (UpperChar(s[0]) == unit <==> s[0] == low || s[0] == unit);
      assert [unit, 'B'][0] == unit && [unit, 'B'][1] == 'B';
    }
  }

  lemma LettersFold()
    ensures forall c :: UpperChar(c) == 'K' <==> c == 'k' || c == 'K'
    ensures forall c :: UpperChar(c) == 'M' <==> c == 'm' || c == 'M'
    ensures forall c :: UpperChar(c) == 'G' <==> c == 'g' || c == 'G'
    ensures forall c :: UpperChar(c) == 'T' <==> c == 't' || c == 'T'
    ensures forall c :: UpperChar(c) == 'B' <==> c == 'b' || c == 'B'
  {
    forall c
      ensures UpperChar(c) == 'K' <==> c == 'k' || c == 'K'
      ensures UpperChar(c) == 'M' <==> c == 'm' || c == 'M'
      ensures UpperChar(c) == 'G' <==> c == 'g' || c == 'G'
      ensures UpperChar(c) == 'T' <==> c == 't' || c == 'T'
      ensures UpperChar(c) == 'B' <==> c == 'b' || c == 'B'
    {
      UpperIs(c);
    }
  }

  /** The suffixes that are understood, spelled out. */
  lemma UnitTexts(suffix: string)
    ensures IsUnit(suffix, 0) <==> suffix in {"b", "B"}
    ensures IsUnit(suffix, 1) <==> suffix in {"k", "K", "kb", "kB", "Kb", "KB"}
    ensures IsUnit(suffix, 2) <==> suffix in {"m", "M", "mb", "mB", "Mb", "MB"}
    ensures IsUnit(suffix, 3) <==> suffix in {"g", "G", "gb", "gB", "Gb", "GB"}
    ensures IsUnit(suffix, 4) <==> suffix in {"t", "T", "tb", "tB", "Tb", "TB"}
    ensures forall power :: power > 4 ==> !IsUnit(suffix, power)
  {
    hide Spells;
    LettersFold();
    assert UNITS[0] == 'K' && UNITS[1] == 'M' && UNITS[2] == 'G' && UNITS[3] == 'T';
    SpellsOne(suffix, 'B', 'b');
    SpellsOne(suffix, 'K', 'k');
    SpellsTwo(suffix, 'K', 'k');
    SpellsOne(suffix, 'M', 'm');
    SpellsTwo(suffix, 'M', 'm');
    SpellsOne(suffix, 'G', 'g');
    SpellsTwo(suffix, 'G', 'g');
    SpellsOne(suffix, 'T', 't');
    SpellsTwo(suffix, 'T', 't');
  }

  /** What does not throw: the two special texts, blanks alone, and the sizes whose number fits. */
  lemma ConvertsIff(val: string)
    ensures MemoryToBytes("max") == Ok("max") && MemoryToBytes("") == Ok("")
    ensures MemoryToBytes(val).Ok?
            <==> (|| val == "max" || Blank(val, ALL_BLANKS)
                  || exists digits, suffix, power ::
                       IsSize(val, digits, suffix, power) && (suffix == "" || ValueOf(digits) < TWO63))
  {
    var t := Trim(val, ALL_BLANKS);
    forall digits, suffix, power | IsSize(val, digits, suffix, power)
      ensures MemoryToBytes(val).Ok? <==> suffix == "" || ValueOf(digits) < TWO63
    {
      SizeConverts(val, digits, suffix, power);
    }
    if val != "max" && val != "" && MemoryToBytes(val).Ok? && t != "" {
      var digits, suffix, power := SizeOf(val, t);
    }
  }

  lemma SizeOf(val: string, t: string) returns (digits: string, suffix: string, power: nat)
    requires t == Trim(val, ALL_BLANKS) && t != "" && (AllDigits(t) || Converted(t).Ok?)
    ensures IsSize(val, digits, suffix, power) && (suffix == "" || ValueOf(digits) < TWO63)
  {
    hide Wrapped, Scaled, ToString, ValueOf, Trim, Upper, Power, IsUnit;
    if AllDigits(t) {
      digits, suffix, power := t, "", 0;
      assert digits + suffix == t;
    } else {
      var split := DigitsEnd(t, 0);
      assert t[0..split] == t[..split];
      digits, suffix := t[..split], t[split..];
      power := Power(Upper(suffix)).value;
      UnitIff(suffix, power);
      assert digits + suffix == t;
    }
  }

  /** The product wraps around modulo 2^64, into the range of a signed 64-bit integer. */
  lemma WrappedIs(x: int)
    ensures -0x8000_0000_0000_0000 <= Wrapped(x) < 0x8000_0000_0000_0000
    ensures (x - Wrapped(x)) % 0x1_0000_0000_0000_0000 == 0
  {
  }
}
