/** Base58 text: the encoder and decoder, the checksummed form, and versioned data. */
module Base58 {
  import opened BitNumbers
  import opened Positional
  import opened BigNum
  import opened Wrappers

  // ----- the alphabet -----

  /** The digits of pszBase58, in order. */
  function Symbol(d: nat): char
    requires d < 58
  {
    match d
    case 0 => '1' case 1 => '2' case 2 => '3' case 3 => '4' case 4 => '5' case 5 => '6' case 6 => '7'
    case 7 => '8' case 8 => '9' case 9 => 'A'
    case 10 => 'B' case 11 => 'C' case 12 => 'D' case 13 => 'E' case 14 => 'F' case 15 => 'G' case 16 => 'H'
    case 17 => 'J' case 18 => 'K' case 19 => 'L'
    case 20 => 'M' case 21 => 'N' case 22 => 'P' case 23 => 'Q' case 24 => 'R' case 25 => 'S' case 26 => 'T'
    case 27 => 'U' case 28 => 'V' case 29 => 'W'
    case 30 => 'X' case 31 => 'Y' case 32 => 'Z' case 33 => 'a' case 34 => 'b' case 35 => 'c' case 36 => 'd'
    case 37 => 'e' case 38 => 'f' case 39 => 'g'
    case 40 => 'h' case 41 => 'i' case 42 => 'j' case 43 => 'k' case 44 => 'm' case 45 => 'n' case 46 => 'o'
    case 47 => 'p' case 48 => 'q' case 49 => 'r'
    case 50 => 's' case 51 => 't' case 52 => 'u' case 53 => 'v' case 54 => 'w' case 55 => 'x' case 56 => 'y'
    case 57 => 'z'
  }

  function IndexFrom(c: char, i: nat): (r: Option<nat>)
    requires i <= 58
    ensures r.Some? ==> r.value < 58 && Symbol(r.value) == c
    decreases 58 - i
  {
    if i == 58 then None else if Symbol(i) == c then Some(i) else IndexFrom(c, i + 1)
  }

  /** strchr on the alphabet. */
  function Index(c: char): (r: Option<nat>)
    ensures r.Some? ==> r.value < 58 && Symbol(r.value) == c
  {
    IndexFrom(c, 0)
  }

  lemma SymbolsAscend(d: nat)
    requires d < 57
    ensures Symbol(d) < Symbol(d + 1)
  {
  }

  /** The alphabet is the digits and letters without 0, O, I and l, in the order of their codes. */
  lemma AlphabetIs(c: char)
    ensures (exists d: nat | d < 58 :: Symbol(d) == c) <==>
      ('1' <= c <= '9' || 'A' <= c <= 'Z' || 'a' <= c <= 'z') && c != 'O' && c != 'I' && c != 'l'
  {
    if ('1' <= c <= '9' || 'A' <= c <= 'Z' || 'a' <= c <= 'z') && c != 'O' && c != 'I' && c != 'l' {
      var d: nat := if c <= '9' then c as int - '1' as int
                    else if c < 'I' then c as int - 'A' as int + 9
                    else if c < 'O' then c as int - 'A' as int + 8
                    else if c <= 'Z' then c as int - 'A' as int + 7
                    else if c < 'l' then c as int - 'a' as int + 33
                    else c as int - 'a' as int + 32;
      assert Symbol(d) == c;
    }
  }

  lemma {:induction false} SymbolsDiffer(d: nat, e: nat)
    requires d < e < 58
    ensures Symbol(d) < Symbol(e)
  {
    hide Symbol;
    SymbolsAscend(e - 1);
    if d < e - 1 {
      SymbolsDiffer(d, e - 1);
    }
  }

  lemma {:induction false} FoundFrom(d: nat, i: nat)
    requires i <= d < 58
    ensures IndexFrom(Symbol(d), i) == Some(d)
    decreases d - i
  {
    hide Symbol;
    if i < d {
      SymbolsDiffer(i, d);
      FoundFrom(d, i + 1);
    }
  }

  predicate IsSpace(c: char) {
    c == ' ' || '\t' <= c <= '\r'
  }

  lemma SymbolsAreNoSpaces(d: nat)
    requires d < 58
    ensures !IsSpace(Symbol(d)) && Symbol(0) == '1'
  {
    if d > 0 {
      SymbolsDiffer(0, d);
    }
  }

  // ----- text and digits -----

  function Text(s: Digits): (t: string)
    requires Below(58, s)
    ensures |t| == |s|
  {
    seq(|s|, i requires 0 <= i < |s| => Symbol(s[i]))
  }

  predicate InAlphabet(t: string) {
    forall i | 0 <= i < |t| :: Index(t[i]).Some?
  }

  function Values(t: string): (s: Digits)
    requires InAlphabet(t)
    ensures |s| == |t| && Below(58, s)
  {
    seq(|t|, i requires 0 <= i < |t| => Index(t[i]).value)
  }

  lemma TextValues(s: Digits)
    requires Below(58, s)
    ensures InAlphabet(Text(s)) && Values(Text(s)) == s
  {
    hide Symbol, Index;
    forall i | 0 <= i < |s|
      ensures Index(Text(s)[i]) == Some(s[i])
    {
      IndexOfSymbol(s[i]);
    }
  }

  lemma IndexOfSymbol(d: nat)
    requires d < 58
    ensures Index(Symbol(d)) == Some(d)
  {
    FoundFrom(d, 0);
  }

  lemma ValuesText(t: string)
    requires InAlphabet(t)
    ensures Text(Values(t)) == t
  {
    hide Symbol;
  }

  // ----- what the functions compute -----

  function Encoded(b: seq<byte>): string {
    Text(Converted(256, 58, b))
  }

  function SkipSpaces(s: string): (r: string)
    ensures r != "" ==> !IsSpace(r[0])
  {
    if s != "" && IsSpace(s[0]) then SkipSpaces(s[1..]) else s
  }

  /** The number of leading characters that are in the alphabet. */
  function Run(t: string): (k: nat)
    ensures k <= |t| && InAlphabet(t[..k])
    ensures k < |t| ==> Index(t[k]).None?
  {
    if t == "" || Index(t[0]).None? then 0
    else
      var k := 1 + Run(t[1..]);
      assert t[..k] == [t[0]] + t[1..][..k - 1];
      k
  }

  /** Surrounding space is skipped; anything else outside the alphabet refuses the string. */
  function Decoded(s: string): Option<seq<byte>> {
    var t := SkipSpaces(s);
    var k := Run(t);
    if SkipSpaces(t[k..]) != "" then None else Some(Converted(58, 256, Values(t[..k])))
  }

  // ----- round trips -----

  lemma {:induction false} RunOfAlphabet(t: string)
    requires InAlphabet(t)
    ensures Run(t) == |t|
  {
    hide Index;
    if t != "" {
      assert InAlphabet(t[1..]);
      RunOfAlphabet(t[1..]);
    }
  }

  lemma NoSpaceToSkip(t: string)
    requires InAlphabet(t)
    ensures SkipSpaces(t) == t
  {
    hide Symbol, IsSpace;
    if t != "" {
      var d := Index(t[0]).value;
      SymbolsAreNoSpaces(d);
    }
  }

  lemma DecodedAlphabet(t: string)
    requires InAlphabet(t)
    ensures Decoded(t) == Some(Converted(58, 256, Values(t)))
  {
    hide Index, Values, Converted;
    NoSpaceToSkip(t);
    RunOfAlphabet(t);
    assert t[..|t|] == t && t[|t|..] == "";
  }

  /** Decoding what was encoded gives the same bytes, leading zeros included. */
  lemma DecodeEncode(b: seq<byte>)
    ensures Decoded(Encoded(b)) == Some(b)
  {
    hide Text, Values, Decoded, Converted;
    var s := Converted(256, 58, b);
    TextValues(s);
    DecodedAlphabet(Text(s));
    ConvertedBack(256, 58, b);
  }

  /** Encoding what was decoded gives the same text. */
  lemma EncodeDecode(t: string)
    requires InAlphabet(t)
    ensures Decoded(t).Some? && Encoded(Decoded(t).value) == t
  {
    hide Text, Values, Decoded, Converted;
    DecodedAlphabet(t);
    ConvertedBack(58, 256, Values(t));
    ValuesText(t);
  }

  /** A string decodes to `b` exactly when, spaces around it aside, it is the encoding of `b`. */
  lemma DecodesExactly(s: string, b: seq<byte>)
    ensures Decoded(s) == Some(b) <==>
      (var t := SkipSpaces(s); var k := Run(t); SkipSpaces(t[k..]) == "" && t[..k] == Encoded(b))
  {
    var t := SkipSpaces(s);
    var k := Run(t);
    hide Text, Values, Converted, SkipSpaces, Run;
    EncodeDecode(t[..k]);
    DecodedAlphabet(t[..k]);
    DecodeEncode(b);
  }

  // ----- the functions themselves -----

  function Backwards(s: string): (r: string)
    ensures |r| == |s|
  {
    seq(|s|, i requires 0 <= i < |s| => s[|s| - 1 - i])
  }

  lemma ZeroInFront(b: seq<byte>)
    ensures BigNum.Reversed(BigNum.Reversed(b) + [0]) == [0] + b
  {
    var r := BigNum.Reversed(b) + [0];
    forall i | 0 <= i < |b| + 1
      ensures BigNum.Reversed(r)[i] == ([0] + b)[i]
    {
      assert BigNum.Reversed(r)[i] == r[|b| - i];
    }
  }

  lemma BackwardsEmpty()
    ensures Backwards("") == ""
  {
  }

  lemma BackwardsFirst(a: string, s: string, c: char)
    ensures Backwards(s + [c]) == [c] + Backwards(s)
    ensures a + Backwards(s + [c]) == (a + [c]) + Backwards(s)
  {
  }

  /** The zero byte at the end keeps the number from being read as negative. */
  lemma ReadPositive(b: seq<byte>)
    ensures SetVch(BigNum.Reversed(b) + [0]) == Number(256, b)
  {
    ZeroInFront(b);
    hide Number, BigNum.Reversed;
    assert Zeros(1) + b == [0] + b;
    LeadingZeros(256, 1, b);
  }

  lemma OneMoreDigit(n: nat)
    requires 0 < n
    ensures n / 58 < n && Text(DigitsOf(58, n)) == Text(DigitsOf(58, n / 58)) + [Symbol(n % 58)]
  {
    hide Symbol, DigitsOf, Text;
    Positional.Halves(n, 58);
    DigitsUnfold(58, n);
    TextJoin(DigitsOf(58, n / 58), [n % 58]);
    OneText(n % 58);
  }

  lemma OneText(d: nat)
    requires d < 58
    ensures Text([d]) == [Symbol(d)]
  {
    hide Symbol;
  }

  method EncodeBase58(b: seq<byte>) returns (str: string)
    ensures str == Encoded(b)
  {
    hide Symbol, DigitsOf, Number, Text, Leading, Backwards;
    ReadPositive(b);
    var bn := SetVch(BigNum.Reversed(b) + [0]);
    ghost var n: nat := Number(256, b);
    str := "";
    BackwardsEmpty();
    assert Text(DigitsOf(58, n)) + [] == Text(DigitsOf(58, n));
    while bn > 0
      invariant 0 <= bn <= n
      invariant Text(DigitsOf(58, bn)) + Backwards(str) == Text(DigitsOf(58, n))
    {
      OneMoreDigit(bn);
      var c := Symbol(bn % 58);
      BackwardsFirst(Text(DigitsOf(58, bn / 58)), str, c);
      bn := bn / 58;
      str := str + [c];
    }
    assert Text(DigitsOf(58, 0)) == "" by { NoDigits(); }
    assert Backwards(str) == Text(DigitsOf(58, n));
    var p := 0;
    while p < |b| && b[p] == 0
      invariant 0 <= p <= |b| && Leading(b) == p + Leading(b[p..])
      invariant Backwards(str) == Text(Zeros(p)) + Text(DigitsOf(58, n))
    {
      LeadingStep(b, p);
      ZeroText(p);
      BackwardsFirst([], str, Symbol(0));
      assert [Symbol(0)] + (Text(Zeros(p)) + Text(DigitsOf(58, n))) == Text(Zeros(p + 1)) + Text(DigitsOf(58, n));
      str := str + [Symbol(0)];
      p := p + 1;
    }
    LeadingStop(b, p);
    TextJoin(Zeros(p), DigitsOf(58, n));
    str := Backwards(str);
  }

  lemma NoDigits()
    ensures Text(DigitsOf(58, 0)) == "" && Text(Zeros(0)) == ""
  {
  }

  lemma LeadingStep(b: seq<byte>, p: nat)
    requires p < |b| && b[p] == 0
    ensures Leading(b[p..]) == 1 + Leading(b[p + 1..])
  {
    assert b[p..][1..] == b[p + 1..];
  }

  lemma LeadingStop(b: seq<byte>, p: nat)
    requires p <= |b| && (p < |b| ==> b[p] != 0)
    ensures Leading(b[p..]) == 0
  {
  }

  lemma ZeroText(p: nat)
    ensures [Symbol(0)] + Text(Zeros(p)) == Text(Zeros(p + 1))
  {
    hide Symbol;
  }

  lemma TextJoin(a: Digits, b: Digits)
    requires Below(58, a) && Below(58, b)
    ensures Text(a + b) == Text(a) + Text(b)
  {
    hide Symbol;
  }

  /** The sign byte of getvch goes; what is left are the digits, last one first. */
  lemma TrimmedDigits(n: nat)
    ensures BigNum.Reversed(Trimmed(GetVch(n))) == DigitsOf(256, n)
  {
    var d := DigitsOf(256, n);
    var p := ToMpi(n);
    hide DigitsOf;
    assert p == Padded(d);
    var v := GetVch(n);
    if d != [] && d[0] >= 128 {
      assert v[..|v| - 1] == BigNum.Reversed(d);
      assert BigNum.Reversed(BigNum.Reversed(d)) == d;
    } else {
      assert p == d;
      assert d != [] ==> v[|v| - 1] == d[0];
      assert BigNum.Reversed(BigNum.Reversed(d)) == d;
    }
  }

  method DecodeBase58(s: string) returns (r: Option<seq<byte>>)
    ensures r == Decoded(s)
  {
    hide Symbol, Index, IsSpace, Number, DigitsOf, Values, Leading;
    var psz := s;
    while psz != "" && IsSpace(psz[0])
      invariant SkipSpaces(psz) == SkipSpaces(s)
      decreases |psz|
    {
      psz := psz[1..];
    }
    ghost var k := Run(psz);
    var bn := 0;
    var p := 0;
    assert psz[0..] == psz;
    assert Number(58, Values(psz[..0])) == 0 by { NoValues(); assert psz[..0] == ""; }
    while p < |psz|
      invariant 0 <= p <= |psz| && Run(psz) == p + Run(psz[p..]) && InAlphabet(psz[..p])
      invariant bn == Number(58, Values(psz[..p]))
    {
      var p1 := Index(psz[p]);
      if p1 == None {
        var q := p;
        ghost var rest := psz[p..];
        while q < |psz| && IsSpace(psz[q])
          invariant p <= q <= |psz| && SkipSpaces(rest) == SkipSpaces(psz[q..])
        {
          assert psz[q..][1..] == psz[q + 1..];
          q := q + 1;
        }
        if q != |psz| {
          return None;
        }
        break;
      }
      assert psz[p..][1..] == psz[p + 1..];
      NextValue(psz, p);
      bn := bn * 58;
      bn := bn + p1.value;
      p := p + 1;
    }
    assert k == p && SkipSpaces(psz[k..]) == "";
    r := Some(Restored(psz, p, bn));
  }

  lemma NoValues()
    ensures Number(58, Values("")) == 0
  {
  }

  lemma NextValue(t: string, p: nat)
    requires p < |t| && InAlphabet(t[..p]) && Index(t[p]).Some?
    ensures InAlphabet(t[..p + 1])
    ensures Number(58, Values(t[..p + 1])) == Number(58, Values(t[..p])) * 58 + Index(t[p]).value
  {
    hide Index;
    assert t[..p + 1] == t[..p] + [t[p]];
    assert Values(t[..p + 1])[..p] == Values(t[..p]);
  }

  /** The number's bytes behind one zero byte for every leading zero digit. */
  function Restored(psz: string, p: nat, bn: int): (r: seq<byte>)
    requires p <= |psz| && InAlphabet(psz[..p]) && bn == Number(58, Values(psz[..p])) && p == Run(psz)
    ensures r == Converted(58, 256, Values(psz[..p]))
  {
    LeadingOnes(psz, p);
    hide *;
    TrimmedDigits(bn);
    ConvertedIs(58, 256, Values(psz[..p]));
    Zeros(Ones(psz)) + BigNum.Reversed(Trimmed(GetVch(bn)))
  }

  /** A most significant zero byte that only made room for the sign is dropped. */
  function Trimmed(vch: seq<byte>): seq<byte> {
    if |vch| >= 2 && vch[|vch| - 1] == 0 && vch[|vch| - 2] >= 0x80 then vch[..|vch| - 1] else vch
  }

  lemma ConvertedIs(a: nat, b: nat, s: Digits)
    requires 2 <= b
    ensures Converted(a, b, s) == Zeros(Leading(s)) + DigitsOf(b, Number(a, s))
  {
  }

  /** The number of leading zero digits in the text. */
  function Ones(t: string): nat {
    if t != "" && t[0] == Symbol(0) then 1 + Ones(t[1..]) else 0
  }

  lemma {:induction false} LeadingOnes(t: string, p: nat)
    requires p <= |t| && InAlphabet(t[..p]) && p == Run(t)
    ensures Ones(t) == Leading(Values(t[..p]))
    decreases |t|
  {
    hide Symbol, Index;
    if t != "" {
      IndexOfSymbol(0);
      if p > 0 {
        assert t[..p][1..] == t[1..][..p - 1];
        assert Values(t[..p])[1..] == Values(t[1..][..p - 1]);
        LeadingOnes(t[1..], p - 1);
      }
    }
  }

  // ----- with a checksum: any function of the bytes that yields four bytes -----

  type Four = c: seq<byte> | |c| == 4 witness [0, 0, 0, 0]

  type Checksum = seq<byte> -> Four

  function EncodedCheck(b: seq<byte>, sum: Checksum): string {
    Encoded(b + sum(b))
  }

  function DecodedCheck(s: string, sum: Checksum): Option<seq<byte>> {
    match Decoded(s)
    case None => None
    case Some(v) =>
      if |v| < 4 then None
      else if sum(v[..|v| - 4]) != v[|v| - 4..] then None
      else Some(v[..|v| - 4])
  }

  lemma CheckRoundTrip(b: seq<byte>, sum: Checksum)
    ensures DecodedCheck(EncodedCheck(b, sum), sum) == Some(b)
  {
    hide Encoded, Decoded;
    var v := b + sum(b);
    DecodeEncode(v);
    assert v[..|v| - 4] == b && v[|v| - 4..] == sum(b);
  }

  /** A string passes the check exactly when, spaces aside, it is the checked encoding of the bytes it yields. */
  lemma CheckDecodesExactly(s: string, b: seq<byte>, sum: Checksum)
    ensures DecodedCheck(s, sum) == Some(b) <==>
      (var t := SkipSpaces(s); var k := Run(t); SkipSpaces(t[k..]) == "" && t[..k] == EncodedCheck(b, sum))
  {
    hide Encoded, Decoded, SkipSpaces, Run;
    DecodesExactly(s, b + sum(b));
    if DecodedCheck(s, sum) == Some(b) {
      var v := Decoded(s).value;
      assert v == b + sum(b);
    }
  }

  // ----- versioned data -----

  class CBase58Data {
    var version: seq<byte>
    var data: seq<byte>

    constructor ()
      ensures version == [] && data == []
    {
      version, data := [], [];
    }

    method SetData(versionIn: seq<byte>, bytes: seq<byte>)
      modifies this
      ensures version == versionIn && data == bytes
    {
      version := versionIn;
      data := bytes;
    }

    /** The string is split after its version bytes; a string that does not decode counts as empty. */
    method SetString(s: string, versionBytes: nat, sum: Checksum) returns (ok: bool)
      modifies this
      ensures var d := DecodedCheck(s, sum);
        var v := if d.Some? then d.value else [];
        ok == (versionBytes <= |v|)
        && version == (if ok then v[..versionBytes] else []) && data == (if ok then v[versionBytes..] else [])
    {
      var d := DecodedCheck(s, sum);
      var temp := if d.Some? then d.value else [];
      if |temp| < versionBytes {
        data := [];
        version := [];
        return false;
      }
      version := temp[..versionBytes];
      data := temp[versionBytes..];
      return true;
    }

    method ToString(sum: Checksum) returns (s: string)
      ensures s == EncodedCheck(version + data, sum)
    {
      s := EncodeBase58(version + data + sum(version + data));
    }

    /** What ToString writes, SetString reads back. */
    method Reread(sum: Checksum) returns (copy: CBase58Data)
      ensures fresh(copy) && copy.version == version && copy.data == data
    {
      var s := ToString(sum);
      copy := new CBase58Data();
      CheckRoundTrip(version + data, sum);
      var ok := copy.SetString(s, |version|, sum);
    }
  }

  // ----- secret keys -----

  /** A secret key with its compression flag, as the data behind the version byte. */
  function KeyData(secret: seq<byte>, compressed: bool): (d: seq<byte>) {
    secret + if compressed then [1] else []
  }

  /** IsValid accepts exactly the data of secret keys of 32 bytes. */
  lemma KeyDataFormat(d: seq<byte>)
    ensures |d| == 32 || (|d| == 33 && d[32] == 1)
      <==> exists secret: seq<byte>, compressed :: |secret| == 32 && d == KeyData(secret, compressed)
  {
    if |d| == 32 {
      assert d == KeyData(d, false);
    } else if |d| == 33 && d[32] == 1 {
      assert d == KeyData(d[..32], true);
    }
  }

  class CBitcoinSecret {
    const base: CBase58Data
    /** The version byte of the network's secret keys. */
    const prefix: byte

    constructor (prefix: byte)
      ensures fresh(base) && this.prefix == prefix
    {
      this.prefix := prefix;
      base := new CBase58Data();
    }

    method SetKey(secret: seq<byte>, compressed: bool)
      modifies base
      ensures base.version == [prefix] && base.data == KeyData(secret, compressed)
    {
      base.SetData([prefix], secret);
      if compressed {
        base.data := base.data + [1];
      }
    }

    /** A string is taken exactly when it decodes to the version byte and the data of a secret key. */
    method SetString(s: string, sum: Checksum) returns (ok: bool)
      modifies base
      ensures ok <==> exists secret: seq<byte>, compressed ::
        |secret| == 32 && DecodedCheck(s, sum) == Some([prefix] + KeyData(secret, compressed))
      ensures ok ==> DecodedCheck(s, sum) == Some(base.version + base.data) && base.version == [prefix]
    {
      hide DecodedCheck;
      ok := base.SetString(s, 1, sum);
      if !ok {
        return;
      }
      ghost var all := DecodedCheck(s, sum).value;
      assert all == all[..1] + all[1..];
      ok := (|base.data| == 32 || (|base.data| == 33 && base.data[32] == 1)) && base.version == [prefix];
      KeyDataFormat(base.data);
      forall secret: seq<byte>, compressed | DecodedCheck(s, sum) == Some([prefix] + KeyData(secret, compressed))
        ensures base.version == [prefix] && base.data == KeyData(secret, compressed)
      {
        var v := [prefix] + KeyData(secret, compressed);
        assert v[..1] == [prefix] && v[1..] == KeyData(secret, compressed);
      }
    }

    method GetKey() returns (secret: seq<byte>, compressed: bool)
      requires |base.data| >= 32
      ensures secret == base.data[..32] && compressed == (|base.data| > 32 && base.data[32] == 1)
    {
      return base.data[..32], |base.data| > 32 && base.data[32] == 1;
    }

    /** A key set, written, read and taken out again is the same key with the same flag. */
    method Reopen(secret: seq<byte>, compressed: bool, sum: Checksum) returns (ok: bool, again: seq<byte>, flag: bool)
      requires |secret| == 32
      modifies base
      ensures ok && again == secret && flag == compressed
    {
      hide DecodedCheck, EncodedCheck;
      SetKey(secret, compressed);
      CheckRoundTrip(base.version + base.data, sum);
      var s := base.ToString(sum);
      ok := SetString(s, sum);
      var v := [prefix] + KeyData(secret, compressed);
      assert v[1..] == KeyData(secret, compressed);
      assert base.data == (base.version + base.data)[1..];
      again, flag := GetKey();
    }
  }
}
