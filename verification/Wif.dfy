/** The Python converter between hexadecimal private keys and wallet import format. A hexadecimal string is the
    list of its digit values, so upper and lower case are the same; `None` stands for a raised exception. */
module Wif {
  import opened BitNumbers
  import opened Positional
  import opened Base58
  import opened Wrappers

  type Hex = h: Digits | Below(16, h) witness []

  /** SHA-256 of an even number of hexadecimal digits. */
  type Sha = Hex -> Hash

  type Hash = h: Hex | |h| == 64 witness seq(64, _ => 0)

  const MAINNET: Hex := [9, 11]

  const TESTNET: Hex := [14, 15]

  // ----- what the functions compute -----

  /** b58encode: leading zeros are lost, and the empty string is not a number. */
  function PyEncoded(h: Hex): Option<string> {
    if h == [] then None else Some(Text(DigitsOf(58, Number(16, h))))
  }

  /** hex(n)[2:]. */
  function HexOf(n: nat): Hex {
    if n == 0 then [0] else DigitsOf(16, n)
  }

  /** b58decode. */
  function PyDecoded(v: string): Option<Hex> {
    if InAlphabet(v) then Some(HexOf(Number(58, Values(v)))) else None
  }

  function Check(h: Hex, sha: Sha): Hex {
    sha(sha(h))[..8]
  }

  function Prefix(testnet: bool): Hex {
    if testnet then TESTNET else MAINNET
  }

  function PrivToWif(priv: Hex, testnet: bool, sha: Sha): Option<string> {
    var h: Hex := Prefix(testnet) + priv;
    if |priv| % 2 == 1 then None
    else
      var all: Hex := h + Check(h, sha);
      PyEncoded(all)
  }

  /** s[0:-8] and s[-8:]. */
  function Front(h: Hex): Hex {
    if |h| < 8 then [] else h[..|h| - 8]
  }

  function Last(h: Hex): Hex {
    if |h| < 8 then h else h[|h| - 8..]
  }

  /** wifChecksum. */
  function WifChecksum(wif: string, sha: Sha): Option<bool> {
    match PyDecoded(wif)
    case None => None
    case Some(h) =>
      if |Front(h)| % 2 == 1 then None
      else Some(Check(Front(h), sha) == Last(h) && (TESTNET <= h || MAINNET <= h))
  }

  function WifToPriv(wif: string, sha: Sha): Option<Hex> {
    if WifChecksum(wif, sha) == Some(true) then
      var h := Front(PyDecoded(wif).value);
      var priv: Hex := if |h| < 2 then [] else h[2..];
      Some(priv)
    else None
  }

  // ----- the loops -----

  method B58Encode(h: Hex) returns (r: Option<string>)
    ensures r == PyEncoded(h)
  {
    hide Number, DigitsOf, Symbol, Text;
    if h == [] {
      return None;
    }
    var num: nat := Number(16, h);
    ghost var n := num;
    var encode := "";
    assert Text(DigitsOf(58, n)) + "" == Text(DigitsOf(58, n));
    while num > 0
      invariant Text(DigitsOf(58, num)) + encode == Text(DigitsOf(58, n))
    {
      OneMoreDigit(num);
      var res := num % 58;
      encode := [Symbol(res)] + encode;
      num := num / 58;
    }
    NoDigits();
    assert encode == Text(DigitsOf(58, n));
    r := Some(encode);
  }

  method B58Decode(v: string) returns (r: Option<Hex>)
    ensures r == PyDecoded(v)
  {
    hide Number, Index, Values;
    var decimal: nat := 0;
    assert Number(58, Values(v[..0])) == 0 by { NoValues(); assert v[..0] == ""; }
    for i := 0 to |v|
      invariant InAlphabet(v[..i]) && decimal == Number(58, Values(v[..i]))
    {
      var d := Index(v[i]);
      if d == None {
        assert !InAlphabet(v);
        return None;
      }
      NextValue(v, i);
      decimal := decimal * 58 + d.value;
    }
    assert v[..|v|] == v;
    r := Some(HexOf(decimal));
  }

  // ----- round trip -----

  lemma DecodesNumber(n: nat)
    ensures InAlphabet(Text(DigitsOf(58, n))) && Number(58, Values(Text(DigitsOf(58, n)))) == n
  {
    hide Number, DigitsOf, Values, Text;
    TextValues(DigitsOf(58, n));
    NumberOfDigits(58, n);
  }

  lemma PyRoundTrip(h: Hex)
    requires h != [] && h[0] != 0
    ensures PyEncoded(h).Some? && PyDecoded(PyEncoded(h).value) == Some(h)
  {
    hide Number, DigitsOf, Values, Text;
    DecodesNumber(Number(16, h));
    DigitsOfNumber(16, h);
  }

  /** A key in wallet import format reads back as the same key, on either network. */
  lemma WifRoundTrip(priv: Hex, testnet: bool, sha: Sha)
    requires |priv| % 2 == 0
    ensures PrivToWif(priv, testnet, sha).Some?
    ensures WifToPriv(PrivToWif(priv, testnet, sha).value, sha) == Some(priv)
  {
    hide PyDecoded, PyEncoded;
    var h: Hex := Prefix(testnet) + priv;
    var all: Hex := h + Check(h, sha);
    PyRoundTrip(all);
    assert Front(all) == h && Last(all) == Check(h, sha) && h[2..] == priv;
    assert Prefix(testnet) <= all;
  }

  lemma HexNumber(n: nat)
    ensures Number(16, HexOf(n)) == n
  {
    hide DigitsOf;
    if n == 0 {
      assert HexOf(0)[..0] == [];
    } else {
      NumberOfDigits(16, n);
    }
  }

  /** Encoding what was decoded gives the text without its leading ones. */
  lemma OnesIgnored(wif: string)
    requires InAlphabet(wif)
    ensures PyEncoded(PyDecoded(wif).value).Some?
    ensures wif == Text(Zeros(Leading(Values(wif)))) + PyEncoded(PyDecoded(wif).value).value
  {
    hide Number, DigitsOf, Symbol, Index;
    var v := Values(wif);
    var k := Leading(v);
    SplitLeading(v);
    LeadingZeros(58, k, v[k..]);
    BelowTail(58, v, k);
    DigitsOfNumber(58, v[k..]);
    HexNumber(Number(58, v));
    TextJoin(Zeros(k), v[k..]);
    ValuesText(wif);
  }

  /** Decoding and encoding give the text back exactly when it does not start with a one. */
  lemma PyEncodeDecode(wif: string)
    requires InAlphabet(wif)
    ensures PyEncoded(PyDecoded(wif).value) == Some(wif) <==> wif == "" || wif[0] != '1'
  {
    assert PyDecoded(wif).Some?;
    hide Symbol, Text, PyEncoded, PyDecoded;
    OnesIgnored(wif);
    var k, e := Leading(Values(wif)), PyEncoded(PyDecoded(wif).value).value;
    assert |wif| == k + |e|;
    if k == 0 {
      assert Text(Zeros(0)) + e == e;
    }
    if wif != "" {
      ValueOfOne(wif);
    }
  }

  lemma ValueOfOne(wif: string)
    requires InAlphabet(wif) && wif != ""
    ensures Leading(Values(wif)) == 0 <==> wif[0] != '1'
  {
    hide Index, Symbol;
    var d := Values(wif)[0];
    assert Symbol(d) == wif[0];
    SymbolsAreNoSpaces(d);
    IndexOfSymbol(0);
  }

  /** Ones in front change nothing for the decoder. */
  lemma OnesInFront(ones: nat, wif: string)
    ensures PyDecoded(Text(Zeros(ones)) + wif) == PyDecoded(wif)
  {
    hide Index, Symbol, Number;
    var z := Text(Zeros(ones));
    TextValues(Zeros(ones));
    assert forall i | 0 <= i < |wif| :: (z + wif)[ones + i] == wif[i];
    if InAlphabet(wif) {
      assert InAlphabet(z + wif);
      assert Values(z + wif) == Zeros(ones) + Values(wif);
      LeadingZeros(58, ones, Values(wif));
    } else {
      var i :| 0 <= i < |wif| && Index(wif[i]).None?;
      assert Index((z + wif)[ones + i]).None?;
    }
  }

  /** The checked digits are the prefix, the key and its checksum. */
  lemma Rebuilt(h: Hex, priv: Hex, sha: Sha)
    requires |h| >= 10 && |h| % 2 == 0 && Check(Front(h), sha) == Last(h) && (TESTNET <= h || MAINNET <= h)
    requires priv == h[2..|h| - 8]
    ensures |priv| % 2 == 0 && PrivToWif(priv, TESTNET <= h, sha) == PyEncoded(h) && h[0] != 0
  {
    hide PyEncoded, Check;
    var front: Hex := Prefix(TESTNET <= h) + priv;
    assert front == Front(h);
    assert h == front + Last(h);
  }

  /** A key in wallet import format behind any number of ones reads back as that key. */
  lemma OnesAccepted(ones: nat, priv: Hex, testnet: bool, sha: Sha)
    requires |priv| % 2 == 0
    ensures PrivToWif(priv, testnet, sha).Some?
    ensures WifToPriv(Text(Zeros(ones)) + PrivToWif(priv, testnet, sha).value, sha) == Some(priv)
  {
    hide PyDecoded, PyEncoded, Text, PrivToWif;
    WifRoundTrip(priv, testnet, sha);
    OnesInFront(ones, PrivToWif(priv, testnet, sha).value);
  }

  /** The import format of the key behind some ones. */
  ghost predicate IsWif(wif: string, priv: Hex, sha: Sha) {
    |priv| % 2 == 0 && exists ones: nat, testnet ::
      PrivToWif(priv, testnet, sha).Some? && wif == Text(Zeros(ones)) + PrivToWif(priv, testnet, sha).value
  }

  /** Eight digits that are the checksum of nothing and happen to begin with a prefix. */
  predicate BareChecksum(wif: string, sha: Sha) {
    PyDecoded(wif) == Some(Check([], sha)) && (TESTNET <= Check([], sha) || MAINNET <= Check([], sha))
  }

  /** A string is accepted with a key exactly when it is the import format of that key behind any number of ones, or,
      with an empty key, when it is a bare checksum with the look of a prefix. */
  lemma AcceptedIsWif(wif: string, priv: Hex, sha: Sha)
    ensures WifToPriv(wif, sha) == Some(priv) <==> IsWif(wif, priv, sha) || (priv == [] && BareChecksum(wif, sha))
  {
    hide IsWif, BareChecksum, WifToPriv;
    if WifToPriv(wif, sha) == Some(priv) {
      AcceptedForm(wif, priv, sha);
    }
    if IsWif(wif, priv, sha) {
      FormAccepted(wif, priv, sha);
    }
    if priv == [] && BareChecksum(wif, sha) {
      BareAccepted(wif, sha);
    }
  }

  lemma AcceptedForm(wif: string, priv: Hex, sha: Sha)
    requires WifToPriv(wif, sha) == Some(priv)
    ensures IsWif(wif, priv, sha) || (priv == [] && BareChecksum(wif, sha))
  {
    AcceptedLength(wif, sha);
    var h := PyDecoded(wif).value;
    assert InAlphabet(wif);
    hide PyDecoded, PyEncoded, Text, Values, Leading, PrivToWif, Check;
    if |h| >= 10 {
      assert priv == h[2..|h| - 8];
      Rebuilt(h, priv, sha);
      OnesIgnored(wif);
      assert wif == Text(Zeros(Leading(Values(wif)))) + PrivToWif(priv, TESTNET <= h, sha).value;
    }
  }

  lemma FormAccepted(wif: string, priv: Hex, sha: Sha)
    requires IsWif(wif, priv, sha)
    ensures WifToPriv(wif, sha) == Some(priv)
  {
    hide PyDecoded, PyEncoded, Text, PrivToWif, WifToPriv;
    var ones: nat, testnet :|
      PrivToWif(priv, testnet, sha).Some? && wif == Text(Zeros(ones)) + PrivToWif(priv, testnet, sha).value;
    OnesAccepted(ones, priv, testnet, sha);
  }

  /** Accepted digits are at least the checksum, and then a prefix or nothing. */
  lemma AcceptedLength(wif: string, sha: Sha)
    requires WifChecksum(wif, sha) == Some(true)
    ensures var h := PyDecoded(wif).value;
      |h| % 2 == 0 && (|h| >= 10 || (|h| == 8 && h == Check([], sha)))
  {
    hide PyDecoded, Check;
    var h := PyDecoded(wif).value;
    assert |Check(Front(h), sha)| == 8 by { CheckSize(Front(h), sha); }
    if |h| == 8 {
      assert Front(h) == [] && Last(h) == h;
    }
  }

  lemma BareAccepted(wif: string, sha: Sha)
    requires BareChecksum(wif, sha)
    ensures WifToPriv(wif, sha) == Some([])
  {
    hide PyDecoded, Check;
    var h := Check([], sha);
    CheckSize([], sha);
    assert Front(h) == [] && Last(h) == h;
  }

  lemma CheckSize(h: Hex, sha: Sha)
    ensures |Check(h, sha)| == 8
  {
  }

  // ----- agreement with the C++ encoder -----

  function Nibbles(b: seq<byte>): (h: Hex)
    ensures |h| == 2 * |b|
  {
    seq(2 * |b|, i requires 0 <= i < 2 * |b| => if i % 2 == 0 then b[i / 2] / 16 else b[i / 2] % 16)
  }

  lemma {:induction false} NibblesNumber(b: seq<byte>)
    ensures Number(16, Nibbles(b)) == Number(256, b)
    decreases |b|
  {
    if b != [] {
      var c, h := b[..|b| - 1], Nibbles(b);
      var k := |h|;
      assert h[..k - 1][..k - 2] == Nibbles(c);
      NibblesNumber(c);
      assert Number(16, h[..k - 1]) == Number(16, Nibbles(c)) * 16 + h[k - 2];
      assert Number(16, h) == Number(16, h[..k - 1]) * 16 + h[k - 1];
    }
  }

  /** The two encoders agree exactly on the non-empty byte strings that do not start with a zero byte. */
  lemma EncodersAgree(b: seq<byte>)
    ensures PyEncoded(Nibbles(b)) == Some(Encoded(b)) <==> b != [] && b[0] != 0
  {
    hide Number, DigitsOf, Symbol;
    NibblesNumber(b);
    var d := DigitsOf(58, Number(256, b));
    TextJoin(Zeros(Leading(b)), d);
    if Leading(b) == 0 {
      assert Zeros(0) + d == d;
    }
  }

  /** The bytes as hexadecimal digits, two each. */
  function HexBytes(b: Option<seq<byte>>): Option<Hex> {
    match b
    case None => None
    case Some(v) => Some(Nibbles(v))
  }

  /** On text over the alphabet the two decoders give the same digits exactly when the first byte has a non-zero upper
      half; on other text they agree exactly when the C++ decoder refuses it too, so not on surrounding space. */
  lemma DecodersAgree(v: string)
    ensures PyDecoded(v) == HexBytes(Decoded(v)) <==>
      if InAlphabet(v) then Decoded(v).Some? && Decoded(v).value != [] && Decoded(v).value[0] >= 16
      else Decoded(v).None?
  {
    if InAlphabet(v) {
      DecodedNumber(v);
      var b := Decoded(v).value;
      hide Number, DigitsOf, Decoded, InAlphabet, Values;
      NibblesNumber(b);
      if b != [] && b[0] >= 16 {
        DigitsOfNumber(16, Nibbles(b));
      } else if b != [] {
        assert Nibbles(b)[0] == 0;
      }
    }
  }

  /** The decoded bytes have the value of the text. */
  lemma DecodedNumber(v: string)
    requires InAlphabet(v)
    ensures Decoded(v).Some? && Number(256, Decoded(v).value) == Number(58, Values(v))
  {
    hide Number, DigitsOf, Decoded, Text, Leading, Index;
    EncodeDecode(v);
    var b := Decoded(v).value;
    TextValues(Converted(256, 58, b));
    LeadingZeros(58, Leading(b), DigitsOf(58, Number(256, b)));
    NumberOfDigits(58, Number(256, b));
  }

  /** A small first byte loses a digit, a leading one the whole byte, and surrounding space is refused. */
  lemma DecodersDiffer()
    ensures Decoded("2") == Some([1]) && PyDecoded("2") == Some([1]) && HexBytes(Some([1])) == Some([0, 1])
    ensures Decoded("12") == Some([0, 1]) && PyDecoded("12") == Some([1])
    ensures Decoded(" 2") == Some([1]) && PyDecoded(" 2") == None
  {
    hide Decoded, Number, DigitsOf, Index, Symbol;
    SmallSymbols();
    SmallEncoded();
    DecodeEncode([1]);
    DecodeEncode([0, 1]);
    assert Decoded(" 2") == Some([1]) by {
      assert " 2"[1..] == "2" && "2"[1..] == "";
      assert SkipSpaces(" 2") == "2";
      assert Run("2") == 1 + Run("");
      DecodesExactly(" 2", [1]);
    }
    assert InAlphabet("2") && InAlphabet("12") && Index(" 2"[0]).None?;
    DecodedNumber("2");
    DecodedNumber("12");
    NumberOfOne(256);
    NumberOfOne(16);
    assert Nibbles([1]) == [0, 1];
  }

  lemma SmallEncoded()
    ensures Encoded([1]) == "2"
    ensures Encoded([0, 1]) == "12"
  {
    SmallTexts();
    hide Text, Encoded;
    assert Zeros(0) + [1] == [1];
    assert Zeros(1) + [1] == [0, 1];
    EncodedOne(0, [1]);
    EncodedOne(1, [0, 1]);
  }

  lemma EncodedOne(k: nat, b: seq<byte>)
    requires b == Zeros(k) + [1]
    ensures Below(58, b) && Encoded(b) == Text(b)
  {
    hide Number, DigitsOf, Text, Leading;
    LeadingOf(k, [1]);
    LeadingZeros(256, k, [1]);
    NumberOfOne(256);
    NumberOfOne(58);
  }

  lemma SmallTexts()
    ensures Text([1]) == "2"
    ensures Text([0, 1]) == "12"
  {
    SmallSymbols();
    hide Symbol;
  }

  lemma SmallSymbols()
    ensures Symbol(0) == '1' && Symbol(1) == '2'
    ensures Index('2') == Some(1) && Index('1') == Some(0) && Index(' ') == None
  {
    IndexOfSymbol(0);
    IndexOfSymbol(1);
    SpaceIsNoSymbol(0);
  }

  lemma NumberOfOne(base: nat)
    requires 2 <= base
    ensures Number(base, [1]) == 1 && Number(base, [0, 1]) == 1 && DigitsOf(base, 1) == [1]
  {
    assert [1][..0] == [] && [0][..0] == [] && [0, 1][..1] == [0];
    hide DigitsOf;
    DigitsOfNumber(base, [1]);
  }

  lemma {:induction false} SpaceIsNoSymbol(i: nat)
    requires i <= 58
    ensures IndexFrom(' ', i) == None
    decreases 58 - i
  {
    if i < 58 {
      SymbolsAreNoSpaces(i);
      SpaceIsNoSymbol(i + 1);
    }
  }

  /** With the same hash, the converter writes what the node's checksummed encoder writes. */
  lemma WifIsCheckedBase58(key: seq<byte>, testnet: bool, sha: Sha, sum: Checksum)
    requires forall b: seq<byte> :: Nibbles(sum(b)) == Check(Nibbles(b), sha)
    ensures var version := if testnet then 0xEF else 0x9B;
      PrivToWif(Nibbles(key), testnet, sha) == Some(EncodedCheck([version] + key, sum))
  {
    hide PyEncoded, Encoded;
    var version: byte := if testnet then 0xEF else 0x9B;
    var b: seq<byte> := [version] + key;
    var h: Hex := Prefix(testnet) + Nibbles(key);
    assert h == Nibbles(b);
    var all := b + sum(b);
    assert Nibbles(all) == Nibbles(b) + Nibbles(sum(b));
    EncodersAgree(all);
  }
}
