/**
 The string builder with a fixed capacity, and how it prints integers.
 */
module StringBuilder {
  import opened Decimal

  // The notation of an integer.
  function Text(value: int): string {
    if value < 0 then "-" + Digits(-value) else Digits(value)
  }

  predicate IsText(s: string) {
    s != [] && AllDigits(if s[0] == '-' then s[1..] else s)
  }

  function IntValue(s: string): int
    requires IsText(s)
  {
    if s[0] == '-' then 0 - Value(s[1..]) else Value(s)
  }

  /** What is printed stands for the integer. */
  lemma TextRoundTrip(value: int)
    ensures IsText(Text(value)) && IntValue(Text(value)) == value
  {
    hide Digits, Value;
    DigitsOfValue(if value < 0 then -value else value);
    if value < 0 {
      assert Text(value)[1..] == Digits(-value);
    } else {
      assert IsDigit(Digits(value)[0]);
    }
  }

  // As much of s as fits into room.
  function Fitting(s: string, room: nat): string {
    if |s| <= room then s else s[..room]
  }

  lemma SignFitsFirst(digits: string, room: nat)
    ensures Fitting("-" + digits, room) == if room == 0 then [] else "-" + Fitting(digits, room - 1)
  {
  }

  class StaticStringBuilder {
    const buffer: array<char>
    var offset: nat

    ghost predicate Valid()
      reads this
    {
      offset <= buffer.Length
    }

    ghost function View(): (s: string)
      requires Valid()
      reads this, buffer
      ensures |s| == offset
    {
      buffer[..offset]
    }

    constructor (capacity: nat)
      ensures Valid() && fresh(buffer) && buffer.Length == capacity && View() == []
    {
      buffer := new char[capacity](_ => '\0');
      offset := 0;
    }

    /** One character is appended exactly if there is room. */
    method AppendChar(v: char) returns (ok: bool)
      requires Valid()
      modifies this`offset, buffer
      ensures Valid() && ok == (old(offset) < buffer.Length)
      ensures View() == old(View()) + if ok then [v] else []
    {
      if offset >= buffer.Length {
        return false;
      }
      buffer[offset] := v;
      offset := offset + 1;
      return true;
    }

    /** The string is appended exactly if it leaves at least one character of the capacity free. */
    method AppendString(value: string) returns (ok: bool)
      requires Valid()
      modifies this`offset, buffer
      ensures Valid() && ok == (old(offset) + |value| < buffer.Length)
      ensures View() == old(View()) + if ok then value else []
    {
      if offset + |value| >= buffer.Length {
        return false;
      }
      for k := 0 to |value|
        invariant offset == old(offset) && buffer[..offset + k] == old(View()) + value[..k]
      {
        buffer[offset + k] := value[k];
      }
      offset := offset + |value|;
      return true;
    }

    // The digits of a positive number, the last one first.
    static method ExtractDigits(value: uint32) returns (digitValues: array<char>, nDigits: nat)
      requires value > 0
      ensures fresh(digitValues) && nDigits == |Digits(value)| <= digitValues.Length
      ensures forall k :: 0 <= k < nDigits ==> digitValues[nDigits - k - 1] == Digits(value)[k]
    {
      var size := NumDigits(UINT32_RANGE - 1);
      CountIsMonotone(value, UINT32_RANGE - 1);
      digitValues := new char[size](_ => '\0');
      nDigits := 0;
      var rest: uint32 := value;
      ghost var all := Digits(value);
      while rest > 0
        invariant nDigits <= |all| <= size
        invariant if rest > 0 then Digits(rest) == all[..|all| - nDigits] else nDigits == |all|
        invariant forall k :: 0 <= k < nDigits ==> digitValues[k] == all[|all| - 1 - k]
      {
        var curDigit := rest % 10;
        assert Digits(rest)[|Digits(rest)| - 1] == Digit(curDigit);
        assert rest >= 10 ==> Digits(rest)[..|Digits(rest)| - 1] == Digits(rest / 10);
        digitValues[nDigits] := Digit(curDigit);
        nDigits := nDigits + 1;
        rest := rest / 10;
      }
    }

    /** As many digits are appended as there is room for; it succeeds exactly if all have been appended. */
    method WriteUnsignedIntDecimal(value: uint32) returns (ok: bool)
      requires Valid()
      modifies this`offset, buffer
      ensures Valid() && ok == (old(offset) + |Digits(value)| <= buffer.Length)
      ensures View() == old(View()) + Fitting(Digits(value), buffer.Length - old(offset))
    {
      hide View;
      if value == 0 {
        ok := AppendChar('0');
        assert Digits(0) == "0";
        return;
      }
      var digitValues, nDigits := ExtractDigits(value);
      ghost var all := Digits(value);
      hide Digits;
      for i := 0 to nDigits
        invariant Valid() && offset == old(offset) + i && fresh(digitValues)
        invariant forall k :: 0 <= k < nDigits ==> digitValues[nDigits - k - 1] == all[k]
        invariant View() == old(View()) + all[..i]
      {
        var appended := AppendChar(digitValues[nDigits - i - 1]);
        if !appended {
          return false;
        }
        assert all[..i + 1] == all[..i] + [all[i]];
      }
      assert all[..nDigits] == all;
      return true;
    }

    /** Unsigned integers of up to 32 bits. */
    method AppendUnsigned(value: uint32) returns (ok: bool)
      requires Valid()
      modifies this`offset, buffer
      ensures Valid() && ok == (old(offset) + |Text(value)| <= buffer.Length)
      ensures View() == old(View()) + Fitting(Text(value), buffer.Length - old(offset))
    {
      ok := WriteUnsignedIntDecimal(value);
    }

    /** Signed integers of 32 bits. The least of them has no counterpart above zero. */
    method AppendSigned(value: int) returns (ok: bool)
      requires Valid() && -0x8000_0000 < value < 0x8000_0000
      modifies this`offset, buffer
      ensures Valid() && ok == (old(offset) + |Text(value)| <= buffer.Length)
      ensures View() == old(View()) + Fitting(Text(value), buffer.Length - old(offset))
    {
      hide View, Fitting, Digits;
      var magnitude := value;
      if value < 0 {
        SignFitsFirst(Digits(-value), buffer.Length - offset);
        var appended := AppendChar('-');
        if !appended {
          return false;
        }
        magnitude := -value;
      }
      ok := WriteUnsignedIntDecimal(magnitude);
    }
  }

  /** What a successful call has appended can be read back. */
  lemma AppendedTextReadsBack(before: string, value: int, room: nat)
    requires |Text(value)| <= room
    ensures var after := before + Fitting(Text(value), room);
            after[..|before|] == before && IsText(after[|before|..]) && IntValue(after[|before|..]) == value
  {
    hide IntValue, IsText, Text;
    TextRoundTrip(value);
    assert (before + Text(value))[|before|..] == Text(value);
  }
}
