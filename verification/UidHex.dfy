/** A UID on its way from the card reader, as hexadecimal text, to the backend and back. */
module UidHex {
  import opened Text
  import opened Wiegand

  // ---- Printing and reading hexadecimal ----

  /** %02X of every byte. */
  function UpperHex(bytes: seq<Byte>): string {
    if bytes == [] then ""
    else UpperHex(bytes[..|bytes| - 1]) + Pair(bytes[|bytes| - 1])
  }

  function Pair(b: Byte): string {
    [UpperChar(HexDigit(b / 16)), UpperChar(HexDigit(b % 16))]
  }

  lemma {:induction false} EncodeAppend(a: seq<Byte>, b: seq<Byte>)
    ensures Encode(a + b) == Encode(a) + Encode(b)
  {
    if a == [] {
      assert a + b == b;
    } else {
      assert (a + b)[1..] == a[1..] + b;
      EncodeAppend(a[1..], b);
    }
  }

  /** The client prints what the backend calls UIDHex. */
  lemma {:induction false} UpperHexIsUpperEncode(bytes: seq<Byte>)
    ensures UpperHex(bytes) == ToUpper(Encode(bytes)) && |UpperHex(bytes)| == 2 * |bytes|
  {
    if bytes != [] {
      var n := |bytes| - 1;
      UpperHexIsUpperEncode(bytes[..n]);
      EncodeAppend(bytes[..n], [bytes[n]]);
      assert bytes == bytes[..n] + [bytes[n]];
      assert [bytes[n]][1..] == [];
      assert Encode([bytes[n]]) == [HexDigit(bytes[n] / 16), HexDigit(bytes[n] % 16)];
    }
  }

  lemma HexDigitReads(n: nat)
    requires n < 16
    ensures HexValue(HexDigit(n)) == Some(n) && HexValue(UpperChar(HexDigit(n))) == Some(n)
    ensures !IsSpace(UpperChar(HexDigit(n))) && UpperChar(HexDigit(n)) != '\0'
  {
  }

  /** Reading undoes printing in upper case. */
  lemma {:induction false} DecodeUndoesEncode(bytes: seq<Byte>)
    ensures |ToUpper(Encode(bytes))| == 2 * |bytes| && Decode(ToUpper(Encode(bytes))) == Some(bytes)
  {
    if bytes != [] {
      DecodeUndoesEncode(bytes[1..]);
      HexDigitReads(bytes[0] / 16);
      HexDigitReads(bytes[0] % 16);
      var text := ToUpper(Encode(bytes));
      assert text[2..] == ToUpper(Encode(bytes[1..]));
      assert bytes == [bytes[0]] + bytes[1..];
    }
  }

  lemma HexValueDigit(c: char)
    requires HexValue(c).Some?
    ensures HexValue(c).value < 16 && UpperChar(HexDigit(HexValue(c).value)) == UpperChar(c)
  {
  }

  /** Printing undoes reading, up to the case of the letters. */
  lemma {:induction false} EncodeUndoesDecode(s: string)
    requires |s| % 2 == 0 && Decode(s).Some?
    ensures ToUpper(Encode(Decode(s).value)) == ToUpper(s)
  {
    if s != "" {
      EncodeUndoesDecode(s[2..]);
      HexValueDigit(s[0]);
      HexValueDigit(s[1]);
      var b := Decode(s).value;
      assert b[1..] == Decode(s[2..]).value;
      assert b[0] / 16 == HexValue(s[0]).value && b[0] % 16 == HexValue(s[1]).value;
      assert ToUpper(s) == [UpperChar(s[0]), UpperChar(s[1])] + ToUpper(s[2..]);
    }
  }

  lemma {:induction false} DecodeIgnoresCase(s: string)
    requires |s| % 2 == 0
    ensures |ToUpper(s)| % 2 == 0 && Decode(ToUpper(s)) == Decode(s)
  {
    if s != "" {
      DecodeIgnoresCase(s[2..]);
      assert ToUpper(s)[2..] == ToUpper(s[2..]);
      UpperReadsSame(s[0]);
      UpperReadsSame(s[1]);
    }
  }

  lemma UpperReadsSame(c: char)
    ensures HexValue(UpperChar(c)) == HexValue(c)
  {
  }

  // ---- The reader's buffer ----

  /** The C string in a buffer: everything before the first NUL. */
  function CString(buf: seq<char>): string {
    if buf == [] || buf[0] == '\0' then "" else [buf[0]] + CString(buf[1..])
  }

  lemma {:induction false} CStringOf(text: string, buf: seq<char>)
    requires text + ['\0'] <= buf && '\0' !in text
    ensures CString(buf) == text
  {
    if text == "" {
      assert buf[0] == (text + ['\0'])[0];
    } else {
      assert buf[0] == text[0] && text[1..] + ['\0'] == (text + ['\0'])[1..];
      CStringOf(text[1..], buf[1..]);
    }
  }

  predicate GoodResponse(recv: seq<Byte>, room: nat) {
    |recv| >= 2 && recv[|recv| - 2] == 0x90 && recv[|recv| - 1] == 0x00 && 2 * (|recv| - 2) < room
  }

  /** read_uid after the card has answered: every byte of the UID takes two characters and a closing NUL,
      which the next byte overwrites. All writes are inside the buffer. A response without UID bytes is
      accepted too, and then nothing at all is written. */
  method ReadUid(recv: seq<Byte>, out: array<char>) returns (ok: bool)
    modifies out
    ensures ok <==> |recv| >= 2 && recv[|recv| - 2] == 144 && recv[|recv| - 1] == 0 && 2 * |recv| < out.Length + 4
    ensures !ok ==> out[..] == old(out[..])
    ensures ok ==> var uid := recv[..|recv| - 2];
                   if uid == [] then out[..] == old(out[..])
                   else && out[..2 * |uid|] == UpperHex(uid) && out[2 * |uid|] == '\0'
                        && forall k :: 2 * |uid| < k < out.Length ==> out[k] == old(out[k])
  {
    if |recv| < 2 {
      return false;
    }
    if recv[|recv| - 2] != 0x90 || recv[|recv| - 1] != 0x00 {
      return false;
    }
    var uid := recv[..|recv| - 2];
    if 2 * |uid| >= out.Length {
      return false;
    }
    for i := 0 to |uid|
      invariant |UpperHex(uid[..i])| == 2 * i && out[..2 * i] == UpperHex(uid[..i])
      invariant i > 0 ==> out[2 * i] == '\0'
      invariant i == 0 ==> out[..] == old(out[..])
      invariant forall k :: 2 * i < k < out.Length ==> out[k] == old(out[k])
    {
      ghost var before := out[..2 * i];
      var pair := Pair(uid[i]);
      out[2 * i], out[2 * i + 1], out[2 * i + 2] := pair[0], pair[1], '\0';
      assert uid[..i + 1][..i] == uid[..i];
      assert out[..2 * (i + 1)] == before + pair;
    }
    assert uid[..|uid|] == uid;
    return true;
  }

  /** A response of the two status bytes alone is accepted whenever the buffer has any room. */
  lemma EmptyUidIsAccepted(room: nat)
    ensures GoodResponse([0x90, 0x00], room) <==> room > 0
  {
  }

  /** The reader's buffer of 64 characters takes every UID of up to 31 bytes, and no longer one. */
  lemma UidsThatFit(uid: seq<Byte>)
    ensures GoodResponse(uid + [0x90, 0x00], 64) <==> |uid| <= 31
  {
  }

  lemma {:induction false} UpperHexCharacters(bytes: seq<Byte>)
    ensures forall c :: c in UpperHex(bytes) ==> !IsSpace(c) && c != '\0'
  {
    if bytes != [] {
      UpperHexCharacters(bytes[..|bytes| - 1]);
      HexDigitReads(bytes[|bytes| - 1] / 16);
      HexDigitReads(bytes[|bytes| - 1] % 16);
    }
  }

  lemma BufferText(uid: seq<Byte>, buf: seq<char>)
    requires 2 * |uid| < |buf|
    requires buf[..2 * |uid|] == UpperHex(uid) && buf[2 * |uid|] == '\0'
    ensures CString(buf) == UpperHex(uid)
  {
    UpperHexCharacters(uid);
    assert buf[..2 * |uid| + 1] == UpperHex(uid) + ['\0'];
    CStringOf(UpperHex(uid), buf);
  }

  lemma UpperHexIsTrimmed(uid: seq<Byte>)
    ensures TrimSpace(UpperHex(uid)) == UpperHex(uid)
  {
    var text := UpperHex(uid);
    UpperHexCharacters(uid);
    assert text != "" ==> text[0] in text && text[|text| - 1] in text;
    TrimSpaceTrims(text);
  }

  lemma ReadsTrimmed(text: string, uid: seq<Byte>)
    requires TrimSpace(text) == text && |text| % 2 == 0 && Decode(text) == Some(uid)
    ensures HexToBytes(text) == Some(uid)
  {
  }

  lemma Even(n: nat, m: nat)
    requires m == 2 * n
    ensures m % 2 == 0
  {
  }

  /** The backend decodes what the client prints to the same bytes. */
  lemma BackendReads(uid: seq<Byte>)
    ensures HexToBytes(UpperHex(uid)) == Some(uid)
  {
    var text := UpperHex(uid);
    UpperHexIsTrimmed(uid);
    UpperHexIsUpperEncode(uid);
    DecodeUndoesEncode(uid);
    Even(|uid|, |text|);
    ReadsTrimmed(text, uid);
  }

  lemma CodesOfText(text: string, uid: seq<Byte>)
    requires HexToBytes(text) == Some(uid)
    ensures FromUIDHex(text) == FromUID(uid)
  {
  }

  /** From the card to the backend and back: whatever buffer of 64 characters read_uid has filled with a UID
      of 1 to 31 bytes, the backend decodes the text to the same bytes, and its UIDHex is the same text. */
  lemma CardToBackend(uid: seq<Byte>, buf: seq<char>)
    requires 1 <= |uid| <= 31 && |buf| == 64
    requires buf[..2 * |uid|] == UpperHex(uid) && buf[2 * |uid|] == '\0'
    ensures HexToBytes(CString(buf)) == Some(uid)
    ensures FromUIDHex(CString(buf)).Some? && FromUIDHex(CString(buf)).value.uidHex == CString(buf)
  {
    BufferText(uid, buf);
    BackendReads(uid);
    CodesOfText(CString(buf), uid);
    UidHexOf(uid);
    UpperHexIsUpperEncode(uid);
  }
}
