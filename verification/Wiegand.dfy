/** Badge UIDs and the numbers the access-control system may know them by. */
module Wiegand {
  import opened Text
  import opened Decimal

  type Byte = b: int | 0 <= b < 256

  datatype Codes = Codes(
    uidHex: string, mifareHex: string, mifareDecimal: nat, facility: nat, card: nat,
    wiegand26: string, unpadded: string, premium: nat)

  /** The first four bytes; a shorter UID is padded with zeros on the left. */
  function Padded(uid: seq<Byte>): (u: seq<Byte>)
    ensures |u| == 4
  {
    if |uid| >= 4 then uid[..4] else seq(4 - |uid|, _ => 0) + uid
  }

  /** (a << 24) | (b << 16) | (c << 8) | d; the fields do not overlap, so `or` adds. */
  function Word(a: Byte, b: Byte, c: Byte, d: Byte): nat {
    a * 0x100_0000 + b * 0x1_0000 + c * 0x100 + d
  }

  /** (b1 << 8) | b0. */
  function Card(b1: Byte, b0: Byte): nat {
    b1 * 0x100 + b0
  }

  // ---- Hexadecimal ----

  function HexDigit(n: nat): char
    requires n < 16
  {
    if n < 10 then '0' + n as char else 'a' + (n - 10) as char
  }

  /** hex.EncodeToString. */
  function Encode(bytes: seq<Byte>): string {
    if bytes == [] then ""
    else [HexDigit(bytes[0] / 16), HexDigit(bytes[0] % 16)] + Encode(bytes[1..])
  }

  function HexValue(c: char): Option<nat> {
    if '0' <= c <= '9' then Some((c - '0') as nat)
    else if 'a' <= c <= 'f' then Some((c - 'a') as nat + 10)
    else if 'A' <= c <= 'F' then Some((c - 'A') as nat + 10)
    else None
  }

  /** hex.DecodeString on text of even length. */
  function Decode(s: string): Option<seq<Byte>>
    requires |s| % 2 == 0
  {
    if s == "" then Some([])
    else
      match (HexValue(s[0]), HexValue(s[1]), Decode(s[2..]))
      case (Some(h), Some(l), Some(rest)) =>
        if h < 16 && l < 16 then Some([16 * h + l] + rest) else None
      case _ => None
  }

  function HexToBytes(s: string): Option<seq<Byte>> {
    var clean := TrimSpace(s);
    if |clean| % 2 != 0 then None else Decode(clean)
  }

  /** %08X. */
  function Hex8(n: nat): string
    requires n < 0x1_0000_0000
  {
    ToUpper(Encode([n / 0x100_0000, n / 0x1_0000 % 256, n / 0x100 % 256, n % 256]))
  }

  // ---- The codes of a UID ----

  /** %d%05d. */
  function Padded26(facility: nat, card: nat): string {
    Print(facility) + PrintPadded(card, 5)
  }

  function FromUID(uid: seq<Byte>): Option<Codes> {
    if uid == [] then None
    else
      var u := Padded(uid);
      var mifare := Word(u[0], u[1], u[2], u[3]);
      var facility: nat := u[2];
      var card := Card(u[1], u[0]);
      Some(Codes(ToUpper(Encode(uid)), Hex8(mifare), mifare, facility, card,
                 Padded26(facility, card), Print(facility) + Print(card),
                 Word(u[3], u[2], u[1], u[0])))
  }

  function FromUIDHex(text: string): Option<Codes> {
    match HexToBytes(text)
    case None => None
    case Some(bytes) => FromUID(bytes)
  }

  // ---- Numbers ----

  lemma Padded26Value(facility: nat, card: nat)
    requires card < 100_000
    ensures var text := Padded26(facility, card);
            AllDigits(text) && |text| > 0 && Value(text) == facility * 100_000 + card
  {
    PrintValue(facility);
    assert Pow10(5) == 100_000;
    PaddedValue(card, 5);
    PaddedLength(card, 5);
    ValueConcat(Print(facility), PrintPadded(card, 5));
  }

  lemma UidHexOf(uid: seq<Byte>)
    requires uid != []
    ensures FromUID(uid).Some? && FromUID(uid).value.uidHex == ToUpper(Encode(uid))
  {
  }

  lemma CodeRanges(uid: seq<Byte>)
    requires uid != []
    ensures var c, u := FromUID(uid).value, Padded(uid);
            && c.facility == u[2] < 256 && c.card == Card(u[1], u[0]) < 65536
            && c.wiegand26 == Padded26(c.facility, c.card)
  {
  }

  /** The padded code read as a number splits into facility and card. */
  lemma Wiegand26Value(uid: seq<Byte>)
    requires uid != []
    ensures var c := FromUID(uid).value;
            && AllDigits(c.wiegand26) && |c.wiegand26| > 0
            && Value(c.wiegand26) == c.facility * 100_000 + c.card
            && Value(c.wiegand26) / 100_000 == c.facility && Value(c.wiegand26) % 100_000 == c.card
  {
    var c := FromUID(uid).value;
    CodeRanges(uid);
    Padded26Value(c.facility, c.card);
  }

  lemma CardInjective(a: Byte, b: Byte, c: Byte, d: Byte)
    ensures Card(a, b) == Card(c, d) <==> a == c && b == d
  {
  }

  lemma FirstThree(u: seq<Byte>, v: seq<Byte>)
    requires |u| == 4 && |v| == 4
    ensures u[..3] == v[..3] <==> u[0] == v[0] && u[1] == v[1] && u[2] == v[2]
  {
    assert u[..3] == [u[0], u[1], u[2]] && v[..3] == [v[0], v[1], v[2]];
  }

  /** Two badges share the padded code exactly when the first three bytes on the bus agree. */
  lemma SameWiegand26(a: seq<Byte>, b: seq<Byte>)
    requires a != [] && b != []
    ensures FromUID(a).value.wiegand26 == FromUID(b).value.wiegand26 <==> Padded(a)[..3] == Padded(b)[..3]
  {
    CodeRanges(a);
    CodeRanges(b);
    Wiegand26Value(a);
    Wiegand26Value(b);
    var u, v := Padded(a), Padded(b);
    FirstThree(u, v);
    CardInjective(u[1], u[0], v[1], v[0]);
  }

  lemma SplitByte(h: nat, d: Byte, h': nat, d': Byte)
    requires h * 0x100 + d == h' * 0x100 + d'
    ensures h == h' && d == d'
  {
  }

  lemma WordInjective(a: Byte, b: Byte, c: Byte, d: Byte, w: Byte, x: Byte, y: Byte, z: Byte)
    requires Word(a, b, c, d) == Word(w, x, y, z)
    ensures a == w && b == x && c == y && d == z
  {
    SplitByte(a * 0x1_0000 + b * 0x100 + c, d, w * 0x1_0000 + x * 0x100 + y, z);
    SplitByte(a * 0x100 + b, c, w * 0x100 + x, y);
    SplitByte(a, b, w, x);
  }

  lemma NumbersOf(uid: seq<Byte>)
    requires uid != []
    ensures var c, u := FromUID(uid).value, Padded(uid);
            c.mifareDecimal == Word(u[0], u[1], u[2], u[3]) && c.premium == Word(u[3], u[2], u[1], u[0])
  {
  }

  function Reversed(u: seq<Byte>): seq<Byte>
    requires |u| == 4
  {
    [u[3], u[2], u[1], u[0]]
  }

  /** The premium code is the MIFARE number of the bytes in reverse order. */
  lemma PremiumReverses(uid: seq<Byte>)
    requires uid != []
    ensures FromUID(Reversed(Padded(uid))).value.mifareDecimal == FromUID(uid).value.premium
  {
    NumbersOf(uid);
    var back := Reversed(Padded(uid));
    NumbersOf(back);
    assert Padded(back) == back;
  }

  lemma ReverseWordInjective(u: seq<Byte>, v: seq<Byte>)
    requires |u| == 4 && |v| == 4 && Word(u[3], u[2], u[1], u[0]) == Word(v[3], v[2], v[1], v[0])
    ensures u == v
  {
    WordInjective(u[3], u[2], u[1], u[0], v[3], v[2], v[1], v[0]);
  }

  /** The premium code tells apart any two padded UIDs. */
  lemma PremiumInjective(a: seq<Byte>, b: seq<Byte>)
    requires a != [] && b != []
    ensures FromUID(a).value.premium == FromUID(b).value.premium <==> Padded(a) == Padded(b)
  {
    NumbersOf(a);
    NumbersOf(b);
    if FromUID(a).value.premium == FromUID(b).value.premium {
      ReverseWordInjective(Padded(a), Padded(b));
    }
  }

  /** The unpadded code agrees with the padded one exactly when the card number has five digits. */
  lemma UnpaddedAgrees(uid: seq<Byte>)
    requires uid != []
    ensures var c := FromUID(uid).value; c.unpadded == c.wiegand26 <==> c.card >= 10_000
  {
    var c := FromUID(uid).value;
    CodeRanges(uid);
    assert Pow10(5) == 100_000 && Pow10(4) == 10_000;
    PaddedLength(c.card, 5);
    if c.card >= 10_000 {
      FiveDigits(c.card);
      assert PrintPadded(c.card, 5) == Print(c.card);
    } else {
      PrintLength(c.card, 4);
      assert |c.unpadded| < |c.wiegand26|;
    }
  }

  lemma FiveDigits(n: nat)
    requires 10_000 <= n < 100_000
    ensures |Print(n)| == 5
  {
    assert n / 10 / 10 / 10 / 10 < 10;
    assert |Print(n / 10 / 10 / 10 / 10)| == 1;
    assert |Print(n / 10 / 10 / 10)| == 2;
    assert |Print(n / 10 / 10)| == 3;
    assert |Print(n / 10)| == 4;
  }

  /** Without the padding different badges collide: facility 1, card 23 and facility 12, card 3. */
  lemma UnpaddedCollides()
    ensures Print(1) + Print(23) == Print(12) + Print(3) && Padded26(1, 23) != Padded26(12, 3)
  {
    assert Print(1) == [Digit(1)] && Print(2) == [Digit(2)] && Print(3) == [Digit(3)];
    assert Print(23) == Print(2) + [Digit(3)] && Print(12) == Print(1) + [Digit(2)];
    Padded26Value(1, 23);
    Padded26Value(12, 3);
  }

  /** The unpadded text read as a number. */
  function UnpaddedNumber(facility: nat, card: nat): nat {
    facility * Pow10(|Print(card)|) + card
  }

  lemma UnpaddedText(facility: nat, card: nat)
    ensures var text := Print(facility) + Print(card);
            && Value(text) == UnpaddedNumber(facility, card) && AllDigits(text)
            && text != "" && (text[0] == '0' <==> facility == 0)
  {
    PrintValue(facility);
    PrintValue(card);
    ValueConcat(Print(facility), Print(card));
    FirstDigit(facility);
  }

  lemma SameNumberSameText(a: string, b: string)
    requires a != "" && b != "" && AllDigits(a) && AllDigits(b) && a[0] != '0' && b[0] != '0'
    requires Value(a) == Value(b)
    ensures a == b
  {
    PrintUndoesValue(a);
    PrintUndoesValue(b);
  }

  /** Two pairs share the unpadded text exactly when it reads as the same number and both facilities are zero
      or neither is. */
  lemma UnpaddedShared(facility: nat, card: nat, facility': nat, card': nat)
    ensures Print(facility) + Print(card) == Print(facility') + Print(card') <==>
              && UnpaddedNumber(facility, card) == UnpaddedNumber(facility', card')
              && (facility == 0 <==> facility' == 0)
  {
    UnpaddedText(facility, card);
    UnpaddedText(facility', card');
    if facility == 0 && facility' == 0 {
      assert Print(0) == "0";
    } else if facility != 0 && facility' != 0 && UnpaddedNumber(facility, card) == UnpaddedNumber(facility', card') {
      SameNumberSameText(Print(facility) + Print(card), Print(facility') + Print(card'));
    }
  }

  /** When two badges share the unpadded code. */
  lemma UnpaddedSharedExactly(a: seq<Byte>, b: seq<Byte>)
    requires a != [] && b != []
    ensures var c, d := FromUID(a).value, FromUID(b).value;
            c.unpadded == d.unpadded <==>
              && UnpaddedNumber(c.facility, c.card) == UnpaddedNumber(d.facility, d.card)
              && (c.facility == 0 <==> d.facility == 0)
  {
    var c, d := FromUID(a).value, FromUID(b).value;
    UnpaddedShared(c.facility, c.card, d.facility, d.card);
  }

  // ---- Candidates ----

  /** Without repetition, in order of first occurrence. */
  function Unique(s: seq<string>): seq<string> {
    if s == [] then []
    else
      var rest := Unique(s[..|s| - 1]);
      if s[|s| - 1] in rest then rest else rest + [s[|s| - 1]]
  }

  function Forms(c: Codes): seq<string> {
    [c.wiegand26, c.unpadded, Print(c.premium)]
  }

  function CandidatesOf(c: Codes): seq<string> {
    Unique(Forms(c))
  }

  method CACandidates(c: Codes) returns (out: seq<string>)
    ensures out == CandidatesOf(c)
  {
    var seen := {};
    out := [];
    var forms := Forms(c);
    for i := 0 to |forms|
      invariant out == Unique(forms[..i])
      invariant forall s :: s in seen <==> s in out
    {
      assert forms[..i + 1][..i] == forms[..i];
      if forms[i] !in seen {
        seen := seen + {forms[i]};
        out := out + [forms[i]];
      }
    }
    assert forms[..|forms|] == forms;
  }

  lemma {:induction false} UniqueMembers(s: seq<string>)
    ensures forall x :: x in Unique(s) <==> x in s
    ensures forall i, j :: 0 <= i < j < |Unique(s)| ==> Unique(s)[i] != Unique(s)[j]
  {
    if s != [] {
      UniqueMembers(s[..|s| - 1]);
      assert s == s[..|s| - 1] + [s[|s| - 1]];
    }
  }

  /** The numbers the candidates stand for. */
  function CandidateNumbers(c: Codes): set<int> {
    {Value(c.wiegand26), Value(c.unpadded), c.premium}
  }

  /** Two numbers of at most w digits, one after the other. */
  lemma {:induction false} DigitsBound(s: string, w: nat)
    requires AllDigits(s) && |s| <= w
    ensures Value(s) < Pow10(w)
  {
    if s != "" {
      var t := s[..|s| - 1];
      assert forall c :: c in t ==> c in s;
      DigitsBound(t, w - 1);
    } else if w > 0 {
      DigitsBound(s, w - 1);
    }
  }

  lemma UnpaddedValue(uid: seq<Byte>)
    requires uid != []
    ensures var c := FromUID(uid).value;
            AllDigits(c.unpadded) && |c.unpadded| > 0 && Value(c.unpadded) < 100_000_000
  {
    var c := FromUID(uid).value;
    CodeRanges(uid);
    assert Pow10(3) == 1000 && Pow10(5) == 100_000 && Pow10(8) == 100_000_000;
    PrintValue(c.facility);
    PrintValue(c.card);
    PrintLength(c.facility, 3);
    PrintLength(c.card, 5);
    DigitsBound(Print(c.facility) + Print(c.card), 8);
  }

  lemma FormsParse(uid: seq<Byte>)
    requires uid != []
    ensures var c := FromUID(uid).value;
            && ParseInt64(c.wiegand26) == Some(Value(c.wiegand26))
            && ParseInt64(c.unpadded) == Some(Value(c.unpadded))
            && ParseInt64(Print(c.premium)) == Some(c.premium) && Value(Print(c.premium)) == c.premium
  {
    var c := FromUID(uid).value;
    CodeRanges(uid);
    Wiegand26Value(uid);
    UnpaddedValue(uid);
    PrintValue(c.premium);
    ParseDigits(c.wiegand26);
    ParseDigits(c.unpadded);
    ParseDigits(Print(c.premium));
  }

  lemma CandidateMembers(c: Codes)
    ensures forall s :: s in CandidatesOf(c) <==> s == c.wiegand26 || s == c.unpadded || s == Print(c.premium)
  {
    UniqueMembers(Forms(c));
    assert Forms(c)[0] == c.wiegand26 && Forms(c)[1] == c.unpadded && Forms(c)[2] == Print(c.premium);
  }

  /** Every candidate parses back as a 64-bit number, one of the three, so none is ever skipped. */
  lemma CandidatesParse(uid: seq<Byte>)
    requires uid != []
    ensures var c := FromUID(uid).value;
            forall s :: s in CandidatesOf(c) ==> ParseInt64(s) == Some(Value(s)) && Value(s) in CandidateNumbers(c)
  {
    FormsParse(uid);
    CandidateMembers(FromUID(uid).value);
  }

  /** No two candidates are the same text, and the padded code always comes first. */
  lemma CandidatesInOrder(c: Codes)
    ensures |CandidatesOf(c)| > 0 && CandidatesOf(c)[0] == c.wiegand26
    ensures forall i, j :: 0 <= i < j < |CandidatesOf(c)| ==> CandidatesOf(c)[i] != CandidatesOf(c)[j]
  {
    UniqueMembers(Forms(c));
    CandidatesSpelled(c);
  }

  /** The candidates: the padded code, the unpadded one and the premium number, none of them twice. */
  lemma CandidatesSpelled(c: Codes)
    ensures var a, b, p := c.wiegand26, c.unpadded, Print(c.premium);
            CandidatesOf(c) == if a == b then (if p == a then [a] else [a, p])
                               else if p == a || p == b then [a, b] else [a, b, p]
  {
    UniqueOf(c.wiegand26, c.unpadded, Print(c.premium));
  }

  lemma UniqueOf(a: string, b: string, p: string)
    ensures Unique([a, b, p]) == if a == b then (if p == a then [a] else [a, p])
                                 else if p == a || p == b then [a, b] else [a, b, p]
  {
    assert [a, b, p][..2] == [a, b] && [a, b][..1] == [a] && [a][..0] == [];
    assert Unique([a]) == [a];
    assert Unique([a, b]) == if a == b then [a] else [a, b];
  }

  // ---- The codes, digit by digit ----

  /** The four bytes that count. */
  lemma FourBytes(uid: seq<Byte>)
    requires uid != []
    ensures var u := Padded(uid);
            if |uid| >= 4 then u == [uid[0], uid[1], uid[2], uid[3]]
            else u[4 - |uid|..] == uid && forall i :: 0 <= i < 4 - |uid| ==> u[i] == 0
  {
  }

  lemma SplitAt8(high: nat, low: nat)
    requires low < 256
    ensures (high * 256 + low) / 256 == high && (high * 256 + low) % 256 == low
  {
  }

  lemma SplitAt16(high: nat, low: nat)
    requires low < 65_536
    ensures (high * 65_536 + low) / 65_536 == high
  {
  }

  lemma SplitAt24(high: nat, low: nat)
    requires low < 16_777_216
    ensures (high * 16_777_216 + low) / 16_777_216 == high
  {
  }

  lemma WordDigits(a: Byte, b: Byte, c: Byte, d: Byte)
    ensures HasBytes(Word(a, b, c, d), a, b, c, d) && Word(a, b, c, d) < 4_294_967_296
  {
    var i: int, j: int, k: int, l: int := a, b, c, d;
    SplitAt24(i, j * 65_536 + k * 256 + l);
    SplitAt16(i * 256 + j, k * 256 + l);
    SplitAt8(i, j);
    SplitAt8(i * 65_536 + j * 256 + k, l);
    SplitAt8(i * 256 + j, k);
  }

  /** The bytes of a 32-bit number, highest first. */
  predicate HasBytes(n: nat, a: Byte, b: Byte, c: Byte, d: Byte) {
    n / 16_777_216 == a && n / 65_536 % 256 == b && n / 256 % 256 == c && n % 256 == d
  }

  lemma CardDigits(b1: Byte, b0: Byte)
    ensures Card(b1, b0) / 256 == b1 && Card(b1, b0) % 256 == b0
  {
    SplitAt8(b1, b0);
  }

  lemma FacilityAndCard(uid: seq<Byte>)
    requires uid != []
    ensures var c, u := FromUID(uid).value, Padded(uid);
            c.facility == u[2] && c.card / 256 == u[1] && c.card % 256 == u[0]
  {
    CodeRanges(uid);
    CardDigits(Padded(uid)[1], Padded(uid)[0]);
  }

  lemma BothOrders(uid: seq<Byte>)
    requires uid != []
    ensures var c, u := FromUID(uid).value, Padded(uid);
            HasBytes(c.mifareDecimal, u[0], u[1], u[2], u[3]) && HasBytes(c.premium, u[3], u[2], u[1], u[0])
  {
    var u := Padded(uid);
    NumbersOf(uid);
    WordDigits(u[0], u[1], u[2], u[3]);
    WordDigits(u[3], u[2], u[1], u[0]);
  }

  /** What each number of a badge is made of: bytes 2, 1 and 0 of the four, and all four in either order. */
  lemma CodesOfBytes(uid: seq<Byte>)
    requires uid != []
    ensures var c, u := FromUID(uid).value, Padded(uid);
            && c.facility == u[2] && c.card / 256 == u[1] && c.card % 256 == u[0]
            && Value(c.wiegand26) == 100_000 * u[2] as int + 256 * u[1] as int + u[0] as int
            && HasBytes(c.mifareDecimal, u[0], u[1], u[2], u[3]) && HasBytes(c.premium, u[3], u[2], u[1], u[0])
  {
    FacilityAndCard(uid);
    BothOrders(uid);
    Wiegand26Value(uid);
  }

  /** The printed codes: the facility, then the card number with five digits or as it is; the bytes in
      upper-case hexadecimal. */
  lemma PrintedCodes(uid: seq<Byte>)
    requires uid != []
    ensures var c := FromUID(uid).value;
            && c.wiegand26 == Print(c.facility) + PrintPadded(c.card, 5)
            && c.unpadded == Print(c.facility) + Print(c.card)
            && |c.wiegand26| == |Print(c.facility)| + 5
            && c.mifareHex == ToUpper(Encode(Padded(uid))) && c.uidHex == ToUpper(Encode(uid))
  {
    var c, u := FromUID(uid).value, Padded(uid);
    WordDigits(u[0], u[1], u[2], u[3]);
    CodeRanges(uid);
    assert Pow10(5) == 100_000;
    PaddedLength(c.card, 5);
    assert u == [u[0], u[1], u[2], u[3]];
  }

  lemma KnownText()
    ensures ToUpper(Encode([0xE0, 0x1C, 0xBE, 0xDB])) == "E01CBEDB"
  {
    var uid: seq<Byte>, three: seq<Byte> := [0xE0, 0x1C, 0xBE, 0xDB], [0x1C, 0xBE, 0xDB];
    var two: seq<Byte>, one: seq<Byte> := [0xBE, 0xDB], [0xDB];
    assert uid[1..] == three && three[1..] == two && two[1..] == one && one[1..] == [];
    assert Encode(one) == "db";
    assert Encode(two) == "bedb";
    assert Encode(three) == "1cbedb";
    assert Encode(uid) == "e01cbedb";
  }

  lemma KnownNumbers()
    ensures Word(0xE0, 0x1C, 0xBE, 0xDB) == 3_759_980_251 && Word(0xDB, 0xBE, 0x1C, 0xE0) == 3_686_669_536
    ensures Card(0x1C, 0xE0) == 7392
  {
  }

  lemma KnownCodes(c: Codes, uid: seq<Byte>)
    requires uid == [0xE0, 0x1C, 0xBE, 0xDB] && FromUID(uid) == Some(c)
    ensures c.mifareDecimal == 3_759_980_251 && c.premium == 3_686_669_536 && c.facility == 190 && c.card == 7392
    ensures c.mifareHex == ToUpper(Encode(uid)) == c.uidHex
    ensures c.wiegand26 == Print(c.facility) + PrintPadded(c.card, 5) && c.unpadded == Print(c.facility) + Print(c.card)
  {
    assert Padded(uid) == uid;
    KnownNumbers();
    NumbersOf(uid);
    CodeRanges(uid);
    PrintedCodes(uid);
  }

  lemma KnownWritten()
    ensures Print(190) + PrintPadded(7392, 5) == "19007392" && Print(190) + Print(7392) == "1907392"
  {
    WrittenNumbers();
    Concatenated(Print(190), PrintPadded(7392, 5), "190", "07392");
    Concatenated(Print(190), Print(7392), "190", "7392");
  }

  lemma Concatenated(a: string, b: string, a': string, b': string)
    requires a == a' && b == b'
    ensures a + b == a' + b'
  {
  }

  /** A badge whose codes are known. */
  lemma KnownBadge(uid: seq<Byte>)
    requires uid == [0xE0, 0x1C, 0xBE, 0xDB]
    ensures FromUID(uid)
         == Some(Codes("E01CBEDB", "E01CBEDB", 3_759_980_251, 190, 7392, "19007392", "1907392", 3_686_669_536))
  {
    var c := FromUID(uid).value;
    KnownCodes(c, uid);
    KnownText();
    KnownWritten();
    assert c == Codes(c.uidHex, c.mifareHex, c.mifareDecimal, c.facility, c.card, c.wiegand26, c.unpadded, c.premium);
  }

  predicate IsHex(c: char) {
    '0' <= c <= '9' || 'a' <= c <= 'f' || 'A' <= c <= 'F'
  }

  lemma HexDigitsHaveValues(c: char)
    ensures HexValue(c).Some? <==> IsHex(c)
    ensures HexValue(c).Some? ==> HexValue(c).value < 16
  {
  }

  /** A text decodes if and only if it is made of pairs of hexadecimal digits, in either case. */
  lemma {:induction false} DecodesExactly(s: string)
    requires |s| % 2 == 0
    ensures Decode(s).Some? <==> forall c :: c in s ==> IsHex(c)
    ensures Decode(s).Some? ==> 2 * |Decode(s).value| == |s|
  {
    if s != "" {
      DecodesExactly(s[2..]);
      HexDigitsHaveValues(s[0]);
      HexDigitsHaveValues(s[1]);
      assert (forall c :: c in s ==> IsHex(c)) <==>
               IsHex(s[0]) && IsHex(s[1]) && forall c :: c in s[2..] ==> IsHex(c) by {
        assert s == [s[0], s[1]] + s[2..];
      }
    }
  }

  /** A text has codes if and only if, without surrounding space, it is a positive number of such pairs. */
  lemma UidTextsExactly(text: string)
    ensures var clean := TrimSpace(text);
            FromUIDHex(text).Some? <==> clean != "" && |clean| % 2 == 0 && forall c :: c in clean ==> IsHex(c)
  {
    if |TrimSpace(text)| % 2 == 0 { DecodesExactly(TrimSpace(text)); }
  }
}
