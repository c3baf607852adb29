/**
 * The percent-decoder `UriDecoder` of the file natives.
 *
 * The reference is section 2.1 of RFC 3986, stated as a relation between a
 * text and its encodings: each byte stands for itself, unless it is '%', or for
 * '%' and two hexadecimal digits of either case.  The decoder is proved to
 * invert exactly that relation and to reject everything outside it.
 */
module UriDecoder {
  import opened Basics

  type Byte = x: int | 0 <= x < 256

  const PERCENT: Byte := 0x25

  // ---------- Hexadecimal digits ----------

  /** The digit of value `n`: '0' to '9', and then 'A' to 'F' or 'a' to 'f'. */
  function Digit(n: nat, lower: bool): Byte
    requires n < 16
  {
    if n < 10 then '0' as int + n else (if lower then 'a' else 'A') as int + (n - 10)
  }

  lemma DigitTable(n: nat)
    requires n < 16
    ensures Digit(n, false) as char == "0123456789ABCDEF"[n] && Digit(n, true) as char == "0123456789abcdef"[n]
    ensures HexDigit("0123456789ABCDEF"[n] as int) == HexDigit("0123456789abcdef"[n] as int) == Some(n)
  {
    UpperTable(n);
    LowerTable(n);
  }

  lemma UpperTable(n: nat)
    requires n < 16
    ensures Digit(n, false) as char == "0123456789ABCDEF"[n]
  {
  }

  lemma LowerTable(n: nat)
    requires n < 16
    ensures Digit(n, true) as char == "0123456789abcdef"[n]
  {
  }

  predicate IsDigit(c: Byte, n: nat)
    requires n < 16
  {
    c == Digit(n, false) || c == Digit(n, true)
  }

  /** The value of a digit character, 0-9, A-F or a-f. */
  function HexDigit(c: Byte): Option<Byte> {
    if 0x30 <= c <= 0x39 then Some(c - 0x30)
    else if 0x41 <= c <= 0x46 then Some(c - 0x37)
    else if 0x61 <= c <= 0x66 then Some(c - 0x57)
    else None
  }

  function HexPair(c: Byte, d: Byte): Option<Byte> {
    if HexDigit(c).Some? && HexDigit(d).Some? && HexDigit(c).value < 16 && HexDigit(d).value < 16 then
      Some(HexDigit(c).value * 16 + HexDigit(d).value)
    else None
  }

  /** Exactly the digits have a value, and it is theirs. */
  lemma HexDigitIs(c: Byte, n: nat)
    requires n < 16
    ensures HexDigit(c) == Some(n) <==> IsDigit(c, n)
  {
  }

  lemma HexPairIs(c: Byte, d: Byte, b: Byte)
    ensures HexPair(c, d) == Some(b) <==> IsDigit(c, b / 16) && IsDigit(d, b % 16)
  {
    HexPairSplits(c, d, b);
    HexDigitIs(c, b / 16);
    HexDigitIs(d, b % 16);
  }

  lemma HexPairSplits(c: Byte, d: Byte, b: Byte)
    ensures HexPair(c, d) == Some(b) <==> HexDigit(c) == Some(b / 16) && HexDigit(d) == Some(b % 16)
  {
    assert b == b / 16 * 16 + b % 16;
  }

  /** `c | 0x20`, which maps the letters A-F onto a-f. */
  function Or20(c: Byte): Byte {
    if (c / 0x20) % 2 == 0 then c + 0x20 else c
  }

  /** `s[i]` of a NUL-terminated text; reading past the terminator is out of bounds. */
  function Read(s: seq<Byte>, i: nat): Byte
    requires i <= |s|
  {
    if i < |s| then s[i] else 0
  }

  predicate CString(s: seq<Byte>) {
    forall i :: 0 <= i < |s| ==> s[i] != 0
  }

  // ---------- Encodings ----------

  /** `enc` is an encoding of `plain`. */
  predicate Encodes(enc: seq<Byte>, plain: seq<Byte>)
    decreases |enc|
  {
    if plain == [] then enc == []
    else
      || (enc != [] && plain[0] != PERCENT && enc[0] == plain[0] && Encodes(enc[1..], plain[1..]))
      || (|enc| >= 3 && enc[0] == PERCENT && IsDigit(enc[1], plain[0] / 16) && IsDigit(enc[2], plain[0] % 16)
          && Encodes(enc[3..], plain[1..]))
  }

  /** The left-to-right reading of an encoded text. */
  function Decode(enc: seq<Byte>): Option<seq<Byte>>
    decreases |enc|
  {
    if enc == [] then Some([])
    else if enc[0] != PERCENT then Prepend(enc[0], Decode(enc[1..]))
    else if |enc| < 3 then None
    else match HexPair(enc[1], enc[2])
      case None => None
      case Some(b) => Prepend(b, Decode(enc[3..]))
  }

  function Prepend(b: Byte, r: Option<seq<Byte>>): Option<seq<Byte>> {
    if r.Some? then Some([b] + r.value) else None
  }

  /** Decoding inverts every encoder and accepts nothing but encodings. */
  lemma {:induction false} DecodeInvertsEncodings(enc: seq<Byte>, plain: seq<Byte>)
    ensures Encodes(enc, plain) <==> Decode(enc) == Some(plain)
    decreases |enc|
  {
    if enc == [] {
    } else if enc[0] != PERCENT {
      if plain != [] {
        DecodeInvertsEncodings(enc[1..], plain[1..]);
        assert plain == [plain[0]] + plain[1..];
      }
    } else if |enc| >= 3 {
      if plain != [] {
        HexPairIs(enc[1], enc[2], plain[0]);
        DecodeInvertsEncodings(enc[3..], plain[1..]);
        assert plain == [plain[0]] + plain[1..];
      }
    }
  }

  /** Where the left-to-right scan meets a '%': each escape it accepts is skipped whole. */
  predicate ScanMeets(enc: seq<Byte>, i: nat)
    requires i < |enc|
    decreases |enc|
  {
    if i == 0 then enc[0] == PERCENT
    else if enc[0] != PERCENT then ScanMeets(enc[1..], i - 1)
    else |enc| >= 3 && HexPair(enc[1], enc[2]).Some? && i >= 3 && ScanMeets(enc[3..], i - 3)
  }

  predicate Escape(enc: seq<Byte>, i: nat) {
    i + 2 < |enc| && HexPair(enc[i + 1], enc[i + 2]).Some?
  }

  /** The scan meets a '%' at `i` that two digits do not follow. */
  predicate BadAt(enc: seq<Byte>, i: nat) {
    i < |enc| && ScanMeets(enc, i) && !Escape(enc, i)
  }

  /** Decoding fails exactly when the scan meets a '%' without two digits behind it. */
  lemma {:induction false} DecodeFails(enc: seq<Byte>)
    ensures Decode(enc).None? <==> exists i: nat :: BadAt(enc, i)
    decreases |enc|
  {
    if enc == [] {
    } else if enc[0] == PERCENT && !Escape(enc, 0) {
      assert BadAt(enc, 0);
    } else {
      var k := if enc[0] == PERCENT then 3 else 1;
      DecodeFails(enc[k..]);
      assert Decode(enc).None? <==> Decode(enc[k..]).None?;
      BadLater(enc, k);
    }
  }

  /** After a good first character or escape the scan fails where it fails on the rest. */
  lemma BadLater(enc: seq<Byte>, k: nat)
    requires enc != [] && (enc[0] == PERCENT ==> Escape(enc, 0)) && k == if enc[0] == PERCENT then 3 else 1
    ensures (exists i: nat :: BadAt(enc, i)) <==> (exists i: nat :: BadAt(enc[k..], i))
  {
    if i: nat :| BadAt(enc[k..], i) {
      BadShift(enc, k, i + k);
    }
    if j: nat :| BadAt(enc, j) {
      BadShift(enc, k, j);
    }
  }

  lemma BadShift(enc: seq<Byte>, k: nat, j: nat)
    requires enc != [] && (enc[0] == PERCENT ==> Escape(enc, 0)) && k == if enc[0] == PERCENT then 3 else 1
    ensures BadAt(enc, j) <==> j >= k && BadAt(enc[k..], j - k)
  {
    if k <= j {
      EscapeLater(enc, k, j - k);
    }
  }

  lemma EscapeLater(enc: seq<Byte>, k: nat, i: nat)
    requires k <= |enc|
    ensures Escape(enc[k..], i) <==> Escape(enc, i + k)
  {
    assert i + 2 < |enc[k..]| ==> enc[k..][i + 1] == enc[i + k + 1] && enc[k..][i + 2] == enc[i + k + 2];
  }

  /**
   * An encoder that escapes what `keep` rejects, and always '%', with lower-case digits where `lower` says
   * so; both choose by the place in the text, counted from its end.
   */
  function Encode(plain: seq<Byte>, keep: nat -> bool, lower: nat -> bool): seq<Byte> {
    if plain == [] then []
    else EncodeByte(plain[0], |plain|, keep, lower) + Encode(plain[1..], keep, lower)
  }

  function EncodeByte(b: Byte, n: nat, keep: nat -> bool, lower: nat -> bool): seq<Byte> {
    if b != PERCENT && keep(n) then [b] else [PERCENT, Digit(b / 16, lower(2 * n)), Digit(b % 16, lower(2 * n + 1))]
  }

  /** Round trip, whatever the encoder chooses to leave alone and in either case. */
  lemma {:induction false} RoundTrip(plain: seq<Byte>, keep: nat -> bool, lower: nat -> bool)
    ensures Decode(Encode(plain, keep, lower)) == Some(plain)
  {
    if plain != [] {
      RoundTrip(plain[1..], keep, lower);
      DecodeByte(plain[0], |plain|, keep, lower, Encode(plain[1..], keep, lower));
      assert plain == [plain[0]] + plain[1..];
    }
  }

  lemma DecodeByte(b: Byte, n: nat, keep: nat -> bool, lower: nat -> bool, rest: seq<Byte>)
    requires Decode(rest).Some?
    ensures Decode(EncodeByte(b, n, keep, lower) + rest) == Some([b] + Decode(rest).value)
  {
    if b != PERCENT && keep(n) {
      DecodePlain(b, rest);
    } else {
      DecodeEscape(b, lower(2 * n), lower(2 * n + 1), rest);
    }
  }

  lemma DecodePlain(b: Byte, rest: seq<Byte>)
    requires b != PERCENT && Decode(rest).Some?
    ensures Decode([b] + rest) == Some([b] + Decode(rest).value)
  {
    assert ([b] + rest)[1..] == rest;
  }

  lemma DecodeEscape(b: Byte, lower: bool, lower': bool, rest: seq<Byte>)
    requires Decode(rest).Some?
    ensures Decode([PERCENT, Digit(b / 16, lower), Digit(b % 16, lower')] + rest) == Some([b] + Decode(rest).value)
  {
    var enc := [PERCENT, Digit(b / 16, lower), Digit(b % 16, lower')] + rest;
    assert enc[3..] == rest;
    HexPairIs(enc[1], enc[2], b);
  }

  lemma {:induction false} DecodeNoPercent(enc: seq<Byte>)
    requires PERCENT !in enc
    ensures Decode(enc) == Some(enc)
    decreases |enc|
  {
    if enc != [] {
      DecodeNoPercent(enc[1..]);
      assert enc == [enc[0]] + enc[1..];
    }
  }

  /** Reading on from a prefix that decodes. */
  lemma {:induction false} DecodeConcat(a: seq<Byte>, b: seq<Byte>)
    requires Decode(a).Some?
    ensures Decode(a + b) == if Decode(b).Some? then Some(Decode(a).value + Decode(b).value) else None
    decreases |a|
  {
    if a == [] {
      assert a + b == b;
      assert Decode(b).Some? ==> [] + Decode(b).value == Decode(b).value;
    } else {
      var k := if a[0] == PERCENT then 3 else 1;
      DecodeConcat(a[k..], b);
      FirstApart(a, b, k);
      if Decode(b).Some? {
        Regrouped(Decode(a).value[0], Decode(a[k..]).value, Decode(b).value);
      }
    }
  }

  lemma FirstApart(a: seq<Byte>, b: seq<Byte>, k: nat)
    requires k <= |a|
    ensures (a + b)[k..] == a[k..] + b
  {
  }

  lemma Regrouped(first: Byte, d: seq<Byte>, e: seq<Byte>)
    ensures [first] + (d + e) == [first] + d + e
  {
  }

  lemma {:induction false} DecodeShrinks(enc: seq<Byte>)
    ensures Decode(enc).Some? ==> |Decode(enc).value| <= |enc|
    decreases |enc|
  {
    if enc != [] {
      var k := if enc[0] == PERCENT then 3 else 1;
      if k <= |enc| {
        DecodeShrinks(enc[k..]);
      }
    }
  }

  // ---------- The decoder ----------

  /** The two characters after a '%'; the second is read only behind a digit, so never past the terminator. */
  method HexCharPairToByte(uri: seq<Byte>, pch: nat) returns (r: Option<Byte>)
    requires CString(uri) && pch <= |uri|
    ensures r == if pch + 1 < |uri| then HexPair(uri[pch], uri[pch + 1]) else None
    ensures r.Some? ==> pch + 1 < |uri| && IsDigit(uri[pch], r.value / 16) && IsDigit(uri[pch + 1], r.value % 16)
  {
    var byte: int := 0;
    var i := 0;
    while i < 2
      invariant 0 <= i <= 2 && pch + i <= |uri|
      invariant i == 0 ==> byte == 0
      invariant i == 1 ==> HexDigit(uri[pch]) == Some(byte) && byte < 16
      invariant i == 2 ==> 0 <= byte < 256 && HexPair(uri[pch], uri[pch + 1]) == Some(byte)
    {
      var charCode := Read(uri, pch + i);
      if 0x30 <= charCode <= 0x39 {
        byte := byte * 16 + charCode - 0x30;
      } else {
        charCode := Or20(charCode);
        if 0x61 <= charCode <= 0x66 {
          byte := byte * 16 + charCode - 0x57;
        } else {
          return None;
        }
      }
      i := i + 1;
    }
    HexPairIs(uri[pch], uri[pch + 1], byte);
    return Some(byte);
  }

  /** The constructor: scan to the first '%', and copy only if there is one. */
  method DecodeUri(uri: seq<Byte>) returns (decoded: Option<seq<Byte>>)
    requires CString(uri)
    ensures decoded == Decode(uri)
    ensures decoded.Some? ==> |decoded.value| <= |uri|
  {
    DecodeShrinks(uri);
    var ch: nat := 0;
    while Read(uri, ch) != 0 && Read(uri, ch) != PERCENT
      invariant ch <= |uri| && PERCENT !in uri[..ch]
      decreases |uri| - ch
    {
      ch := ch + 1;
    }
    if Read(uri, ch) == 0 {
      // Nothing to decode: the input is the result.
      assert uri[..ch] == uri;
      DecodeNoPercent(uri);
      return Some(uri);
    }
    decoded := DecodeCopy(uri, ch);
  }

  /**
   * The copying scan.  The constructor never moves `i` on from the first '%', so its
   * length test guards that escape only; the later ones rely on the terminator.
   */
  method DecodeCopy(uri: seq<Byte>, i: nat) returns (decoded: Option<seq<Byte>>)
    requires CString(uri) && i < |uri| && uri[i] == PERCENT && PERCENT !in uri[..i]
    ensures decoded == Decode(uri)
  {
    var len := |uri|;
    var buffer := new Byte[len + 1](_ => 0);
    var dest: nat := 0;
    while dest < i
      invariant dest <= i && forall k :: 0 <= k < dest ==> buffer[k] == uri[k]
    {
      buffer[dest] := uri[dest];
      dest := dest + 1;
    }
    DecodeNoPercent(uri[..i]);
    assert buffer[..dest] == uri[..i];
    var ch := i;
    while Read(uri, ch) != 0
      invariant i <= ch <= len && dest <= ch
      invariant Decode(uri[..ch]) == Some(buffer[..dest])
      decreases len - ch
    {
      var ok;
      ok, ch, dest := DecodeNext(uri, i, buffer, ch, dest);
      if !ok {
        return None;
      }
    }
    assert uri[..ch] == uri;
    decoded := Some(buffer[..dest]);
    buffer[dest] := 0;
  }

  lemma BadEscape(uri: seq<Byte>, ch: nat)
    requires ch < |uri| && uri[ch] == PERCENT && !Escape(uri, ch) && Decode(uri[..ch]).Some?
    ensures Decode(uri).None?
  {
    assert uri == uri[..ch] + uri[ch..];
    DecodeConcat(uri[..ch], uri[ch..]);
  }

  /** One character or one escape. */
  method DecodeNext(uri: seq<Byte>, i: nat, buffer: array<Byte>, ch: nat, dest: nat) returns (ok: bool, c: nat, d: nat)
    requires CString(uri) && i <= ch < |uri| && uri[i] == PERCENT && dest <= ch && buffer.Length == |uri| + 1
    requires Decode(uri[..ch]) == Some(buffer[..dest])
    modifies buffer
    ensures !ok ==> Decode(uri).None?
    ensures ok ==> ch < c <= |uri| && d <= c && Decode(uri[..c]) == Some(buffer[..d])
  {
    ghost var was := buffer[..dest];
    ok, c, d := true, ch, dest;
    if Read(uri, ch) != PERCENT {
      NextPlain(uri, ch);
      buffer[dest] := uri[ch];
      assert buffer[..dest + 1] == was + [uri[ch]];
      return true, ch + 1, dest + 1;
    }
    if i + 3 > |uri| {
      BadEscape(uri, ch);
      return false, ch, dest;
    }
    var byte := HexCharPairToByte(uri, ch + 1);
    if byte.None? {
      BadEscape(uri, ch);
      return false, ch, dest;
    }
    NextEscape(uri, ch, byte.value);
    buffer[dest] := byte.value;
    assert buffer[..dest + 1] == was + [byte.value];
    return true, ch + 3, dest + 1;
  }

  lemma NextPlain(uri: seq<Byte>, ch: nat)
    requires ch < |uri| && uri[ch] != PERCENT && Decode(uri[..ch]).Some?
    ensures Decode(uri[..ch + 1]) == Some(Decode(uri[..ch]).value + [uri[ch]])
  {
    assert uri[..ch + 1] == uri[..ch] + [uri[ch]];
    DecodeConcat(uri[..ch], [uri[ch]]);
    assert [uri[ch]][1..] == [];
    assert [uri[ch]] + [] == [uri[ch]];
    assert Decode([uri[ch]]) == Some([uri[ch]]);
  }

  lemma NextEscape(uri: seq<Byte>, ch: nat, b: Byte)
    requires ch + 3 <= |uri| && uri[ch] == PERCENT && HexPair(uri[ch + 1], uri[ch + 2]) == Some(b)
    requires Decode(uri[..ch]).Some?
    ensures Decode(uri[..ch + 3]) == Some(Decode(uri[..ch]).value + [b])
  {
    var e := uri[ch..ch + 3];
    assert uri[..ch + 3] == uri[..ch] + e;
    DecodeConcat(uri[..ch], e);
    assert e[3..] == [];
    assert [b] + [] == [b];
    assert Decode(e) == Some([b]);
  }
}
