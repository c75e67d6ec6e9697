/** The row validator `is_bad`: a row is bad when its cells, joined with
    ';', do not decode as UTF-8. The grammar is the one of section 4 of
    RFC 3629, with the one relaxation of the Python 2.7 codec. */
module Utf8 {
  import opened PyStr

  /** The decoder in use: the well-formed grammar of section 4 of RFC 3629,
      or the UTF-8 codec of Python 2.7, which accepts the same sequences and
      in addition the three-byte encodings of surrogates (ED A0..BF tail). */
  datatype Codec = Rfc3629 | Python27

  predicate InRange(c: Char8, lo: int, hi: int)
  {
    lo <= c as int <= hi
  }

  /** UTF8-tail = %x80-BF */
  predicate IsTail(c: Char8)
  {
    InRange(c, 0x80, 0xBF)
  }

  /** The length of the encoded character at the front of `s` (UTF8-1 to
      UTF8-4), or 0 when `s` does not start with one. */
  function CharLength(s: Str, codec: Codec): (n: nat)
    ensures n <= 4 && n <= |s|
    ensures forall i :: 1 <= i < n ==> IsTail(s[i])
    ensures n == 1 <==> s != [] && s[0] as int < 0x80
  {
    if s == [] then 0
    else
      var b0 := s[0] as int;
      if b0 < 0x80 then 1
      else if 0xC2 <= b0 <= 0xDF then
        if |s| >= 2 && IsTail(s[1]) then 2 else 0
      else if 0xE0 <= b0 <= 0xEF then
        var lo := if b0 == 0xE0 then 0xA0 else 0x80;
        var hi := if b0 == 0xED && codec == Rfc3629 then 0x9F else 0xBF;
        if |s| >= 3 && InRange(s[1], lo, hi) && IsTail(s[2]) then 3 else 0
      else if 0xF0 <= b0 <= 0xF4 then
        var lo := if b0 == 0xF0 then 0x90 else 0x80;
        var hi := if b0 == 0xF4 then 0x8F else 0xBF;
        if |s| >= 4 && InRange(s[1], lo, hi) && IsTail(s[2]) && IsTail(s[3]) then 4 else 0
      else 0
  }

  /** UTF8-octets = *( UTF8-char ): `s` decodes without error. */
  predicate WellFormed(s: Str, codec: Codec)
    decreases |s|
  {
    s == [] || (CharLength(s, codec) > 0 && WellFormed(s[CharLength(s, codec)..], codec))
  }

  /** The character at the front depends only on its own bytes: appending
      bytes keeps a complete character, and a character that ends inside a
      prefix is already complete in that prefix. */
  lemma CharLengthPrefix(a: Str, t: Str, codec: Codec)
    ensures CharLength(a, codec) > 0 ==> CharLength(a + t, codec) == CharLength(a, codec)
    ensures 0 < CharLength(a + t, codec) <= |a| ==> CharLength(a, codec) == CharLength(a + t, codec)
  {
    if |a| >= 1 { assert (a + t)[0] == a[0]; }
    if |a| >= 2 { assert (a + t)[1] == a[1]; }
    if |a| >= 3 { assert (a + t)[2] == a[2]; }
    if |a| >= 4 { assert (a + t)[3] == a[3]; }
  }

  /** Two well-formed strings concatenate to a well-formed string. */
  lemma {:induction false} WellFormedConcat(a: Str, b: Str, codec: Codec)
    requires WellFormed(a, codec) && WellFormed(b, codec)
    ensures WellFormed(a + b, codec)
  {
    if a == [] {
      assert a + b == b;
    } else {
      var n := CharLength(a, codec);
      CharLengthPrefix(a, b, codec);
      assert (a + b)[n..] == a[n..] + b;
      WellFormedConcat(a[n..], b, codec);
    }
  }

  /** An ASCII byte never sits inside an encoded character, so a string is
      well-formed around it exactly when both sides are. */
  lemma {:induction false} WellFormedSplit(a: Str, x: Char8, b: Str, codec: Codec)
    requires x as int < 0x80
    ensures WellFormed(a + [x] + b, codec) <==> WellFormed(a, codec) && WellFormed(b, codec)
  {
    var s := a + [x] + b;
    if a == [] {
      assert s == [x] + b;
      assert CharLength(s, codec) == 1;
      assert s[1..] == b;
      if WellFormed(b, codec) {
        assert CharLength([x], codec) == 1;
        assert [x][1..] == [];
        WellFormedConcat([x], b, codec);
      }
    } else {
      var n := CharLength(s, codec);
      if n > 0 {
        assert s[|a|] == x;
        assert n <= |a|;
        CharLengthPrefix(a, [x] + b, codec);
        assert s == a + ([x] + b);
        assert s[n..] == a[n..] + [x] + b;
        WellFormedSplit(a[n..], x, b, codec);
      } else {
        CharLengthPrefix(a, [x] + b, codec);
        assert s == a + ([x] + b);
      }
    }
  }

  /** Every string that is well-formed under RFC 3629 also decodes under
      Python 2.7. */
  lemma {:induction false} RfcImpliesPython(s: Str)
    requires WellFormed(s, Rfc3629)
    ensures WellFormed(s, Python27)
  {
    if s != [] {
      assert CharLength(s, Python27) == CharLength(s, Rfc3629);
      RfcImpliesPython(s[CharLength(s, Rfc3629)..]);
    }
  }

  /** The converse fails: the encoded surrogate U+D800 (ED A0 80) decodes
      under Python 2.7 but is not well-formed under RFC 3629. */
  lemma SurrogateAcceptedByPython()
    ensures var s: Str := [0xED as char, 0xA0 as char, 0x80 as char];
      WellFormed(s, Python27) && !WellFormed(s, Rfc3629)
  {
    var s: Str := [0xED as char, 0xA0 as char, 0x80 as char];
    assert CharLength(s, Python27) == 3;
    assert s[3..] == [];
    assert CharLength(s, Rfc3629) == 0;
  }

  /** `is_bad(row)`: the row's cells joined with ';' fail to decode. */
  predicate IsBad(row: seq<Str>)
  {
    !WellFormed(Join(row, ';'), Python27)
  }

  /** A row is bad exactly when one of its cells fails to decode on its own,
      since the joining ';' cannot be part of a multi-byte character. In
      particular the empty row is never bad. */
  lemma {:induction false} IsBadIffSomeCell(row: seq<Str>)
    ensures IsBad(row) <==> exists k :: 0 <= k < |row| && !WellFormed(row[k], Python27)
  {
    if |row| > 1 {
      IsBadIffSomeCell(row[1..]);
      WellFormedSplit(row[0], ';', Join(row[1..], ';'), Python27);
      forall k | 1 <= k < |row| ensures row[k] == row[1..][k - 1] { }
    }
  }
}
