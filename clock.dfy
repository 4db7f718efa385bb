/** The two chrono formats the backup services put in file names, for a
    UTC time given as a parameter in place of `Utc::now()`. */
module Clock {
  import opened Base
  import opened Text

  datatype DateTime = DateTime(year: nat, month: nat, day: nat, hour: nat, minute: nat, second: nat)

  /** A calendar time with a four-digit year. */
  predicate Valid(t: DateTime) {
    t.year <= 9999 && 1 <= t.month <= 12 && 1 <= t.day <= 31 && t.hour < 24 && t.minute < 60 && t.second < 60
  }

  lemma {:induction false} NatToStringLength(n: nat, limit: nat, width: nat)
    requires width >= 1 && n < limit && limit == Pow10(width)
    ensures |NatToString(n)| <= width
  {
    if n >= 10 {
      assert Pow10(1) == 10;
      assert width > 1;
      NatToStringLength(n / 10, Pow10(width - 1), width - 1);
    }
  }

  function Pow10(k: nat): (p: nat)
    ensures p >= 1
  {
    if k == 0 then 1 else 10 * Pow10(k - 1)
  }

  /** A zero-padded field of exactly `width` digits. */
  function Field(n: nat, width: nat): (s: string)
    requires width >= 1 && n < Pow10(width)
    ensures |s| == width && AllDigits(s)
  {
    NatToStringLength(n, Pow10(width), width);
    PadNat(n, width)
  }

  lemma {:induction false} DigitsValueZeros(z: string, d: string)
    requires forall i :: 0 <= i < |z| ==> z[i] == '0'
    requires AllDigits(d)
    ensures AllDigits(z + d) && DigitsValue(z + d) == DigitsValue(d)
    decreases |d|
  {
    var s := z + d;
    if d == [] {
      assert s == z;
      ZerosValue(z);
    } else {
      assert s[..|s| - 1] == z + d[..|d| - 1];
      DigitsValueZeros(z, d[..|d| - 1]);
    }
  }

  lemma {:induction false} ZerosValue(z: string)
    requires forall i :: 0 <= i < |z| ==> z[i] == '0'
    ensures AllDigits(z) && DigitsValue(z) == 0
  {
    if z != [] {
      ZerosValue(z[..|z| - 1]);
    }
  }

  /** A field reads back as the number it holds. */
  lemma FieldValue(n: nat, width: nat)
    requires width >= 1 && n < Pow10(width)
    ensures DigitsValue(Field(n, width)) == n
  {
    NatToStringValue(n);
    var digits := NatToString(n);
    NatToStringLength(n, Pow10(width), width);
    if |digits| < width {
      DigitsValueZeros(seq(width - |digits|, _ => '0'), digits);
    }
  }

  /** `%Y-%m-%dT%H-%M-%S`: 19 characters, dashes where ISO 8601 has colons. */
  function Dashed(t: DateTime): (s: string)
    requires Valid(t)
    ensures |s| == 19
  {
    Field(t.year, 4) + "-" + Field(t.month, 2) + "-" + Field(t.day, 2) + "T"
    + Field(t.hour, 2) + "-" + Field(t.minute, 2) + "-" + Field(t.second, 2)
  }

  /** `%Y%m%d%H%M%S`: 14 digits. */
  function Compact(t: DateTime): (s: string)
    requires Valid(t)
    ensures |s| == 14 && AllDigits(s)
  {
    Field(t.year, 4) + Field(t.month, 2) + Field(t.day, 2) + Field(t.hour, 2) + Field(t.minute, 2) + Field(t.second, 2)
  }

  /** The dashed form has no colon (it is safe in a file name), and no dot. */
  lemma DashedCharacters(t: DateTime)
    requires Valid(t)
    ensures forall i :: 0 <= i < 19 ==> IsDigit(Dashed(t)[i]) || Dashed(t)[i] == '-' || Dashed(t)[i] == 'T'
    ensures ':' !in Dashed(t) && '.' !in Dashed(t) && '/' !in Dashed(t)
  {
    var s := Dashed(t);
    var y, mo, d, h, mi, se := Field(t.year, 4), Field(t.month, 2), Field(t.day, 2), Field(t.hour, 2), Field(t.minute, 2), Field(t.second, 2);
    assert s == y + "-" + mo + "-" + d + "T" + h + "-" + mi + "-" + se;
    forall i | 0 <= i < 19
      ensures IsDigit(s[i]) || s[i] == '-' || s[i] == 'T'
    {
      if i < 4 { assert s[i] == y[i]; }
      else if 5 <= i < 7 { assert s[i] == mo[i - 5]; }
      else if 8 <= i < 10 { assert s[i] == d[i - 8]; }
      else if 11 <= i < 13 { assert s[i] == h[i - 11]; }
      else if 14 <= i < 16 { assert s[i] == mi[i - 14]; }
      else if 17 <= i { assert s[i] == se[i - 17]; }
    }
  }

  /** Reading the dashed form back. */
  function ParseDashed(s: string): (r: Option<DateTime>) {
    if |s| == 19 && AllDigits(s[0..4]) && AllDigits(s[5..7]) && AllDigits(s[8..10])
       && AllDigits(s[11..13]) && AllDigits(s[14..16]) && AllDigits(s[17..19]) then
      Some(DateTime(DigitsValue(s[0..4]), DigitsValue(s[5..7]), DigitsValue(s[8..10]),
                    DigitsValue(s[11..13]), DigitsValue(s[14..16]), DigitsValue(s[17..19])))
    else
      None
  }

  /** Reading the compact form back. */
  function ParseCompact(s: string): (r: Option<DateTime>) {
    if |s| == 14 && AllDigits(s) then
      Some(DateTime(DigitsValue(s[0..4]), DigitsValue(s[4..6]), DigitsValue(s[6..8]),
                    DigitsValue(s[8..10]), DigitsValue(s[10..12]), DigitsValue(s[12..14])))
    else
      None
  }

  /** The dashed form loses nothing: distinct times give distinct names. */
  lemma DashedRoundTrip(t: DateTime)
    requires Valid(t)
    ensures ParseDashed(Dashed(t)) == Some(t)
  {
    var s := Dashed(t);
    var y, mo, d, h, mi, se := Field(t.year, 4), Field(t.month, 2), Field(t.day, 2), Field(t.hour, 2), Field(t.minute, 2), Field(t.second, 2);
    assert s == y + "-" + mo + "-" + d + "T" + h + "-" + mi + "-" + se;
    assert s[0..4] == y && s[5..7] == mo && s[8..10] == d;
    assert s[11..13] == h && s[14..16] == mi && s[17..19] == se;
    FieldValue(t.year, 4);
    FieldValue(t.month, 2);
    FieldValue(t.day, 2);
    FieldValue(t.hour, 2);
    FieldValue(t.minute, 2);
    FieldValue(t.second, 2);
  }

  /** The compact form loses nothing either. */
  lemma CompactRoundTrip(t: DateTime)
    requires Valid(t)
    ensures ParseCompact(Compact(t)) == Some(t)
  {
    var s := Compact(t);
    var y, mo, d, h, mi, se := Field(t.year, 4), Field(t.month, 2), Field(t.day, 2), Field(t.hour, 2), Field(t.minute, 2), Field(t.second, 2);
    assert s == y + mo + d + h + mi + se;
    assert s[0..4] == y && s[4..6] == mo && s[6..8] == d;
    assert s[8..10] == h && s[10..12] == mi && s[12..14] == se;
    FieldValue(t.year, 4);
    FieldValue(t.month, 2);
    FieldValue(t.day, 2);
    FieldValue(t.hour, 2);
    FieldValue(t.minute, 2);
    FieldValue(t.second, 2);
  }
}
