/** The two base64 encoders the SDK generator emits, one in JavaScript over 24-bit words and
    one in Lua over sextets, against a strict decoder for section 4 of RFC 4648. */
module Base64 {
  import opened Text

  const UPPER := "ABCDEFGHIJKLMNOPQRSTUVWXYZ"
  const LOWER := "abcdefghijklmnopqrstuvwxyz"
  const REST := "0123456789+/"
  const ALPHABET := UPPER + LOWER + REST

  /** `_b64.charAt(n)` for a sextet */
  function Char(v: bv6): char {
    AlphabetAt(v as int);
    ALPHABET[v as int]
  }

  // ----- The alphabet, read the other way -----

  /** Table 1 of RFC 4648, from character to value. */
  function Value(c: char): Option<bv6> {
    if 'A' <= c <= 'Z' then Some((c as int - 'A' as int) as bv6)
    else if 'a' <= c <= 'z' then Some((c as int - 'a' as int + 26) as bv6)
    else if '0' <= c <= '9' then Some((c as int - '0' as int + 52) as bv6)
    else if c == '+' then Some(62)
    else if c == '/' then Some(63)
    else None
  }

  lemma {:induction false} UpperAt(n: nat)
    requires n < 26
    ensures |UPPER| == 26 && UPPER[n] as int == 'A' as int + n
  {
  }

  lemma {:induction false} LowerAt(n: nat)
    requires n < 26
    ensures |LOWER| == 26 && LOWER[n] as int == 'a' as int + n
  {
  }

  lemma {:induction false} RestAt(n: nat)
    requires n < 12
    ensures |REST| == 12
    ensures REST[n] as int == if n < 10 then '0' as int + n else if n == 10 then '+' as int else '/' as int
  {
  }

  lemma {:induction false} AlphabetAt(n: nat)
    requires n < 64
    ensures |ALPHABET| == 64
    ensures ALPHABET[n] as int ==
            if n < 26 then 'A' as int + n
            else if n < 52 then 'a' as int + n - 26
            else if n < 62 then '0' as int + n - 52
            else if n == 62 then '+' as int else '/' as int
  {
    hide UPPER, LOWER, REST;
    UpperAt(0);
    LowerAt(0);
    RestAt(0);
    if n < 26 { UpperAt(n); } else if n < 52 { LowerAt(n - 26); } else { RestAt(n - 52); }
  }

  lemma {:induction false} ValueOfChar(v: bv6)
    ensures Value(Char(v)) == Some(v) && Char(v) != '='
  {
    hide ALPHABET;
    AlphabetAt(v as int);
  }

  lemma {:induction false} CharOfValue(c: char)
    requires Value(c).Some?
    ensures Char(Value(c).value) == c && c != '='
  {
    hide ALPHABET;
    var n := if 'A' <= c <= 'Z' then c as int - 'A' as int
             else if 'a' <= c <= 'z' then c as int - 'a' as int + 26
             else if '0' <= c <= '9' then c as int - '0' as int + 52
             else if c == '+' then 62 else 63;
    AlphabetAt(n);
    CharAtNat(n, c);
  }

  lemma {:induction false} CharAtNat(n: nat, c: char)
    requires n < 64 && Value(c) == Some(n as bv6) && |ALPHABET| == 64 && ALPHABET[n] == c
    ensures Char(Value(c).value) == c
  {
    hide ALPHABET, Value;
    assert (n as bv6) as int == n;
  }

  // ----- JavaScript: one 24-bit word a group -----

  function Word(b1: bv8, b2: bv8, b3: bv8): bv32 {
    ((b1 as bv32) << 16) | ((b2 as bv32) << 8) | (b3 as bv32)
  }

  function Sextet(t: bv32, shift: nat): bv6
    requires shift <= 18
  {
    ((t >> shift) & 0x3f) as bv6
  }

  function Or0(b: Option<bv8>): bv8 {
    if b.Some? then b.value else 0
  }

  function JsGroup(b1: bv8, b2: Option<bv8>, b3: Option<bv8>): string {
    var t := Word(b1, Or0(b2), Or0(b3));
    [Char(Sextet(t, 18)), Char(Sextet(t, 12)),
     if b2.Some? then Char(Sextet(t, 6)) else '=',
     if b3.Some? then Char(Sextet(t, 0)) else '=']
  }

  function At(bytes: seq<bv8>, i: nat): Option<bv8> {
    if i < |bytes| then Some(bytes[i]) else None
  }

  function EncodeJs(bytes: seq<bv8>, i: nat): string
    decreases |bytes| - i
  {
    if i >= |bytes| then []
    else JsGroup(bytes[i], At(bytes, i + 1), At(bytes, i + 2)) + EncodeJs(bytes, i + 3)
  }

  method ToBase64Js(bytes: seq<bv8>) returns (out: string)
    ensures out == EncodeJs(bytes, 0)
  {
    hide Char, Sextet, Word;
    out := "";
    var n := |bytes|;
    var i := 0;
    while i < n
      invariant out + EncodeJs(bytes, i) == EncodeJs(bytes, 0)
    {
      var b1 := bytes[i];
      var has2, has3 := i + 1 < n, i + 2 < n;
      var b2 := if has2 then bytes[i + 1] else 0;
      var b3 := if has3 then bytes[i + 2] else 0;
      var t := Word(b1, b2, b3);
      var group := [Char(Sextet(t, 18)), Char(Sextet(t, 12)),
                    if has2 then Char(Sextet(t, 6)) else '=', if has3 then Char(Sextet(t, 0)) else '='];
      assert group == JsGroup(b1, At(bytes, i + 1), At(bytes, i + 2));
      assert out + (group + EncodeJs(bytes, i + 3)) == (out + group) + EncodeJs(bytes, i + 3);
      out := out + group;
      i := i + 3;
    }
  }

  // ----- Lua: sextet by sextet -----

  function LuaGroup(b1: bv8, b2: Option<bv8>, b3: Option<bv8>): string {
    var x1, x2, x3 := b1 as bv64, Or0(b2) as bv64, Or0(b3) as bv64;
    var n1 := x1 >> 2;
    var n2 := ((x1 & 3) << 4) | (x2 >> 4);
    var n3 := ((x2 & 15) << 2) | (x3 >> 6);
    var n4 := x3 & 63;
    [Char(n1 as bv6), Char(n2 as bv6), if b2.Some? then Char(n3 as bv6) else '=',
     if b3.Some? then Char(n4 as bv6) else '=']
  }

  function EncodeLua(bytes: seq<bv8>, i: nat): string
    decreases |bytes| - i
  {
    if i >= |bytes| then []
    else LuaGroup(bytes[i], At(bytes, i + 1), At(bytes, i + 2)) + EncodeLua(bytes, i + 3)
  }

  method ToBase64Lua(bytes: seq<bv8>) returns (out: string)
    ensures out == EncodeLua(bytes, 0)
  {
    hide LuaGroup;
    out := "";
    var i := 0;
    while i < |bytes|
      invariant out + EncodeLua(bytes, i) == EncodeLua(bytes, 0)
    {
      var group := LuaGroup(bytes[i], At(bytes, i + 1), At(bytes, i + 2));
      assert out + (group + EncodeLua(bytes, i + 3)) == (out + group) + EncodeLua(bytes, i + 3);
      out := out + group;
      i := i + 3;
    }
  }

  lemma {:induction false} WordSextets(b1: bv8, b2: bv8, b3: bv8)
    ensures Sextet(Word(b1, b2, b3), 18) == (b1 as bv64 >> 2) as bv6
    ensures Sextet(Word(b1, b2, b3), 12) == (((b1 as bv64 & 3) << 4) | (b2 as bv64 >> 4)) as bv6
    ensures Sextet(Word(b1, b2, b3), 6) == (((b2 as bv64 & 15) << 2) | (b3 as bv64 >> 6)) as bv6
    ensures Sextet(Word(b1, b2, b3), 0) == (b3 as bv64 & 63) as bv6
  {
  }

  lemma {:induction false} GroupsAgree(b1: bv8, b2: Option<bv8>, b3: Option<bv8>)
    ensures LuaGroup(b1, b2, b3) == JsGroup(b1, b2, b3)
  {
    hide Char, Sextet, Word;
    WordSextets(b1, Or0(b2), Or0(b3));
  }

  /** The two emitted encoders agree on every byte sequence. */
  lemma {:induction false} EncodersAgree(bytes: seq<bv8>, i: nat)
    ensures EncodeLua(bytes, i) == EncodeJs(bytes, i)
    decreases |bytes| - i
  {
    hide LuaGroup, JsGroup;
    if i < |bytes| {
      GroupsAgree(bytes[i], At(bytes, i + 1), At(bytes, i + 2));
      EncodersAgree(bytes, i + 3);
    }
  }

  /** Four characters for every started group of three bytes. */
  lemma {:induction false} EncodedLength(bytes: seq<bv8>, i: nat)
    requires i <= |bytes|
    ensures |EncodeJs(bytes, i)| == 4 * ((|bytes| - i + 2) / 3)
    decreases |bytes| - i
  {
    if i + 3 <= |bytes| {
      EncodedLength(bytes, i + 3);
    } else if i < |bytes| {
      assert EncodeJs(bytes, i + 3) == [];
    }
  }

  // ----- A strict decoder -----

  function Byte1(v0: bv6, v1: bv6): bv8 { ((v0 as bv8) << 2) | ((v1 as bv8) >> 4) }
  function Byte2(v1: bv6, v2: bv6): bv8 { ((v1 as bv8) << 4) | ((v2 as bv8) >> 2) }
  function Byte3(v2: bv6, v3: bv6): bv8 { ((v2 as bv8) << 6) | (v3 as bv8) }

  /** A full quantum, or a final one with padding whose spare bits are zero. */
  function Quantum(s: string, last: bool): Option<seq<bv8>>
    requires |s| == 4
  {
    var v0, v1, v2, v3 := Value(s[0]), Value(s[1]), Value(s[2]), Value(s[3]);
    if v0.None? || v1.None? then None
    else if v2.Some? && v3.Some? then
      Some([Byte1(v0.value, v1.value), Byte2(v1.value, v2.value), Byte3(v2.value, v3.value)])
    else if last && v2.Some? && s[3] == '=' && v2.value & 3 == 0 then
      Some([Byte1(v0.value, v1.value), Byte2(v1.value, v2.value)])
    else if last && s[2] == '=' && s[3] == '=' && v1.value & 15 == 0 then
      Some([Byte1(v0.value, v1.value)])
    else None
  }

  function Decode(s: string): Option<seq<bv8>> {
    if s == [] then Some([])
    else if |s| < 4 then None
    else
      var front := Quantum(s[..4], |s| == 4);
      var rest := Decode(s[4..]);
      if front.None? || rest.None? then None else Some(front.value + rest.value)
  }

  lemma {:induction false} FirstByte(b1: bv8, b2: bv8, b3: bv8)
    ensures var t := Word(b1, b2, b3); Byte1(Sextet(t, 18), Sextet(t, 12)) == b1
  {
  }

  lemma {:induction false} SecondByte(b1: bv8, b2: bv8, b3: bv8)
    ensures var t := Word(b1, b2, b3); Byte2(Sextet(t, 12), Sextet(t, 6)) == b2
  {
  }

  lemma {:induction false} ThirdByte(b1: bv8, b2: bv8, b3: bv8)
    ensures var t := Word(b1, b2, b3); Byte3(Sextet(t, 6), Sextet(t, 0)) == b3
  {
  }

  /** The bits that padding leaves spare are zero. */
  lemma {:induction false} SpareBits(b1: bv8, b2: bv8)
    ensures Sextet(Word(b1, b2, 0), 6) & 3 == 0
    ensures Sextet(Word(b1, 0, 0), 12) & 15 == 0
  {
  }

  lemma {:induction false} BytesOfWord(b1: bv8, b2: bv8, b3: bv8)
    ensures var t := Word(b1, b2, b3);
            && Byte1(Sextet(t, 18), Sextet(t, 12)) == b1
            && Byte2(Sextet(t, 12), Sextet(t, 6)) == b2
            && Byte3(Sextet(t, 6), Sextet(t, 0)) == b3
            && (b3 == 0 ==> Sextet(t, 6) & 3 == 0)
            && (b2 == 0 && b3 == 0 ==> Sextet(t, 12) & 15 == 0)
  {
    hide Word, Sextet, Byte1, Byte2, Byte3;
    FirstByte(b1, b2, b3);
    SecondByte(b1, b2, b3);
    ThirdByte(b1, b2, b3);
    SpareBits(b1, b2);
  }

  function GroupBytes(b1: bv8, b2: Option<bv8>, b3: Option<bv8>): seq<bv8> {
    [b1] + (if b2.Some? then [b2.value] else []) + if b3.Some? then [b3.value] else []
  }

  lemma {:induction false} QuantumOfGroup(b1: bv8, b2: Option<bv8>, b3: Option<bv8>, last: bool)
    requires b3.Some? ==> b2.Some?
    requires b3.None? ==> last
    ensures Quantum(JsGroup(b1, b2, b3), last) == Some(GroupBytes(b1, b2, b3))
  {
    hide Char, Value, Sextet, Word, Byte1, Byte2, Byte3;
    var t := Word(b1, Or0(b2), Or0(b3));
    BytesOfWord(b1, Or0(b2), Or0(b3));
    ValueOfChar(Sextet(t, 18));
    ValueOfChar(Sextet(t, 12));
    ValueOfChar(Sextet(t, 6));
    ValueOfChar(Sextet(t, 0));
    PadHasNoValue();
    if b3.Some? {
      assert GroupBytes(b1, b2, b3) == [b1, b2.value, b3.value];
    } else if b2.Some? {
      assert GroupBytes(b1, b2, b3) == [b1, b2.value];
    } else {
      assert GroupBytes(b1, b2, b3) == [b1];
    }
  }

  lemma {:induction false} PadHasNoValue()
    ensures Value('=') == None
  {
  }

  lemma {:induction false} DecodeStep(group: string, rest: string)
    requires |group| == 4
    ensures Decode(group + rest) ==
            if Quantum(group, rest == []).None? || Decode(rest).None? then None
            else Some(Quantum(group, rest == []).value + Decode(rest).value)
  {
    hide Quantum;
    assert (group + rest)[..4] == group && (group + rest)[4..] == rest;
  }

  /** Main result: a standard decoder recovers the bytes, for every byte sequence. */
  lemma {:induction false} DecodeInvertsEncode(bytes: seq<bv8>, i: nat)
    ensures Decode(EncodeJs(bytes, i)) == Some(if i <= |bytes| then bytes[i..] else [])
    decreases |bytes| - i
  {
    hide JsGroup, Quantum, Decode;
    if i < |bytes| {
      var b2, b3 := At(bytes, i + 1), At(bytes, i + 2);
      var group, rest := JsGroup(bytes[i], b2, b3), EncodeJs(bytes, i + 3);
      GroupLength(bytes[i], b2, b3);
      DecodeStep(group, rest);
      DecodeInvertsEncode(bytes, i + 3);
      RestIsEmpty(bytes, i + 3);
      QuantumOfGroup(bytes[i], b2, b3, rest == []);
      TakeGroup(bytes, i);
    } else {
      DecodeNothing();
      assert i == |bytes| ==> bytes[i..] == [];
      assert EncodeJs(bytes, i) == "";
    }
  }

  lemma {:induction false} DecodeNothing()
    ensures Decode("") == Some([])
  {
  }

  lemma {:induction false} RestIsEmpty(bytes: seq<bv8>, i: nat)
    ensures EncodeJs(bytes, i) == [] <==> i >= |bytes|
  {
    hide JsGroup;
    if i < |bytes| { GroupLength(bytes[i], At(bytes, i + 1), At(bytes, i + 2)); }
  }

  lemma {:induction false} TakeGroup(bytes: seq<bv8>, i: nat)
    requires i < |bytes|
    ensures bytes[i..] ==
            GroupBytes(bytes[i], At(bytes, i + 1), At(bytes, i + 2)) + if i + 3 <= |bytes| then bytes[i + 3..] else []
  {
  }

  lemma {:induction false} GroupLength(b1: bv8, b2: Option<bv8>, b3: Option<bv8>)
    ensures |JsGroup(b1, b2, b3)| == 4
  {
    hide Char;
  }

  lemma {:induction false} UpperSextets(v0: bv6, v1: bv6, v2: bv6, v3: bv6)
    ensures var t := Word(Byte1(v0, v1), Byte2(v1, v2), Byte3(v2, v3));
            Sextet(t, 18) == v0 && Sextet(t, 12) == v1
  {
  }

  lemma {:induction false} LowerSextets(v0: bv6, v1: bv6, v2: bv6, v3: bv6)
    ensures var t := Word(Byte1(v0, v1), Byte2(v1, v2), Byte3(v2, v3));
            Sextet(t, 6) == v2 && Sextet(t, 0) == v3
  {
  }

  /** Spare bits that are zero make no byte. */
  lemma {:induction false} ZeroBytes(v1: bv6, v2: bv6)
    ensures v2 & 3 == 0 ==> Byte3(v2, 0) == 0
    ensures v1 & 15 == 0 ==> Byte2(v1, 0) == 0
    ensures Byte3(0, 0) == 0
  {
  }

  lemma {:induction false} WordOfBytes(v0: bv6, v1: bv6, v2: bv6, v3: bv6)
    ensures var t := Word(Byte1(v0, v1), Byte2(v1, v2), Byte3(v2, v3));
            Sextet(t, 18) == v0 && Sextet(t, 12) == v1 && Sextet(t, 6) == v2 && Sextet(t, 0) == v3
    ensures v2 & 3 == 0 ==>
              var t := Word(Byte1(v0, v1), Byte2(v1, v2), 0);
              Sextet(t, 18) == v0 && Sextet(t, 12) == v1 && Sextet(t, 6) == v2
    ensures v1 & 15 == 0 ==>
              var t := Word(Byte1(v0, v1), 0, 0);
              Sextet(t, 18) == v0 && Sextet(t, 12) == v1
  {
    hide Word, Sextet, Byte1, Byte2, Byte3;
    UpperSextets(v0, v1, v2, v3);
    LowerSextets(v0, v1, v2, v3);
    UpperSextets(v0, v1, v2, 0);
    LowerSextets(v0, v1, v2, 0);
    UpperSextets(v0, v1, 0, 0);
    ZeroBytes(v1, v2);
  }

  /** What a quantum decodes to encodes to that quantum again. */
  lemma {:induction false} GroupOfQuantum(s: string, last: bool)
    requires |s| == 4 && Quantum(s, last).Some?
    ensures var bs := Quantum(s, last).value;
            && 1 <= |bs| <= 3
            && (|bs| < 3 ==> last)
            && JsGroup(bs[0], At(bs, 1), At(bs, 2)) == s
  {
    hide Char, Value, Sextet, Word, Byte1, Byte2, Byte3;
    CharOfValue(s[0]);
    CharOfValue(s[1]);
    var v0, v1 := Value(s[0]).value, Value(s[1]).value;
    if Value(s[2]).Some? {
      CharOfValue(s[2]);
      var v2 := Value(s[2]).value;
      if Value(s[3]).Some? {
        CharOfValue(s[3]);
        WordOfBytes(v0, v1, v2, Value(s[3]).value);
      } else {
        WordOfBytes(v0, v1, v2, 0);
      }
    } else {
      WordOfBytes(v0, v1, 0, 0);
    }
  }

  lemma {:induction false} EncodeShifts(front: seq<bv8>, bytes: seq<bv8>, i: nat)
    ensures EncodeJs(front + bytes, |front| + i) == EncodeJs(bytes, i)
    decreases |bytes| - i
  {
    hide JsGroup;
    if i < |bytes| {
      EncodeShifts(front, bytes, i + 3);
    }
  }

  /** And the encoder inverts the decoder: every text it accepts is the encoding of what it
      reads, so the two are a bijection between byte sequences and accepted texts. */
  lemma {:induction false} EncodeInvertsDecode(s: string)
    requires Decode(s).Some?
    ensures EncodeJs(Decode(s).value, 0) == s
    decreases |s|
  {
    hide JsGroup, Quantum;
    if s != [] {
      var bs, rest := Quantum(s[..4], |s| == 4).value, Decode(s[4..]).value;
      GroupOfQuantum(s[..4], |s| == 4);
      EncodeInvertsDecode(s[4..]);
      var bytes := bs + rest;
      assert s == s[..4] + s[4..];
      if |s| == 4 {
        assert rest == [] && bytes == bs;
        assert EncodeJs(bytes, 3) == [];
      } else {
        EncodeShifts(bs, rest, 0);
        assert At(bytes, 1) == At(bs, 1) && At(bytes, 2) == At(bs, 2);
      }
    }
  }

  // ----- Hex mode -----

  function HexValue(c: char): Option<nat> {
    if '0' <= c <= '9' then Some(c as nat - '0' as nat)
    else if 'a' <= c <= 'f' then Some(c as nat - 'a' as nat + 10)
    else if 'A' <= c <= 'F' then Some(c as nat - 'A' as nat + 10)
    else None
  }

  /** `replace(/[^0-9a-fA-F]/g, '')`, which is also `gsub('%X', '')` */
  function HexDigits(s: string): (digits: string)
    ensures forall i :: 0 <= i < |digits| ==> HexValue(digits[i]).Some?
  {
    if s == [] then []
    else (if HexValue(s[0]).Some? then [s[0]] else []) + HexDigits(s[1..])
  }

  /** The value of one or two hex digits from `i` on: `parseInt(hex.substr(i, 2), 16)`. */
  function PairValue(digits: string, i: nat): (v: nat)
    requires i < |digits| && forall k :: 0 <= k < |digits| ==> HexValue(digits[k]).Some?
    ensures v < 256
  {
    if i + 1 < |digits| then 16 * HexValue(digits[i]).value + HexValue(digits[i + 1]).value
    else HexValue(digits[i]).value
  }

  function PairsFrom(digits: string, i: nat): seq<nat>
    requires forall k :: 0 <= k < |digits| ==> HexValue(digits[k]).Some?
    decreases |digits| - i
  {
    if i >= |digits| then [] else [PairValue(digits, i)] + PairsFrom(digits, i + 2)
  }

  /** The bytes of Hex mode, as numbers below 256. */
  function HexBytes(s: string): seq<nat> {
    PairsFrom(HexDigits(s), 0)
  }

  method ParseHex(value: string) returns (bytes: seq<nat>)
    ensures bytes == HexBytes(value)
  {
    hide HexValue;
    var hex := HexDigits(value);
    bytes := [];
    var i := 0;
    while i < |hex|
      invariant bytes + PairsFrom(hex, i) == PairsFrom(hex, 0)
    {
      assert bytes + ([PairValue(hex, i)] + PairsFrom(hex, i + 2)) == (bytes + [PairValue(hex, i)]) + PairsFrom(hex, i + 2);
      bytes := bytes + [PairValue(hex, i)];
      i := i + 2;
    }
  }

  function LowerHex(n: nat): char
    requires n < 16
  {
    if n < 10 then ('0' as int + n) as char else ('a' as int + n - 10) as char
  }

  /** Two lower-case digits a byte. */
  function Spell(bytes: seq<nat>): string
    requires forall i :: 0 <= i < |bytes| ==> bytes[i] < 256
  {
    if bytes == [] then [] else [LowerHex(bytes[0] / 16), LowerHex(bytes[0] % 16)] + Spell(bytes[1..])
  }

  function ToLower(c: char): char {
    if 'A' <= c <= 'F' then (c as int + 32) as char else c
  }

  function AllLower(s: string): string {
    seq(|s|, i requires 0 <= i < |s| => ToLower(s[i]))
  }

  lemma {:induction false} LowerHexOf(c: char)
    requires HexValue(c).Some?
    ensures HexValue(c).value < 16 && LowerHex(HexValue(c).value) == ToLower(c)
  {
  }

  lemma {:induction false} PairsBelow(digits: string, i: nat)
    requires forall k :: 0 <= k < |digits| ==> HexValue(digits[k]).Some?
    ensures forall k :: 0 <= k < |PairsFrom(digits, i)| ==> PairsFrom(digits, i)[k] < 256
    decreases |digits| - i
  {
    hide HexValue;
    if i < |digits| { PairsBelow(digits, i + 2); }
  }

  lemma {:induction false} SpellPairs(digits: string, i: nat)
    requires forall k :: 0 <= k < |digits| ==> HexValue(digits[k]).Some?
    requires i <= |digits| && (|digits| - i) % 2 == 0
    ensures forall k :: 0 <= k < |PairsFrom(digits, i)| ==> PairsFrom(digits, i)[k] < 256
    ensures Spell(PairsFrom(digits, i)) == AllLower(digits)[i..]
    decreases |digits| - i
  {
    hide HexValue, LowerHex, ToLower;
    PairsBelow(digits, i);
    if i < |digits| {
      SpellPairs(digits, i + 2);
      LowerHexOf(digits[i]);
      LowerHexOf(digits[i + 1]);
      var hi, lo := HexValue(digits[i]).value, HexValue(digits[i + 1]).value;
      assert (16 * hi + lo) / 16 == hi && (16 * hi + lo) % 16 == lo;
      assert PairsFrom(digits, i)[1..] == PairsFrom(digits, i + 2);
      assert AllLower(digits)[i..] == [ToLower(digits[i]), ToLower(digits[i + 1])] + AllLower(digits)[i + 2..];
    }
  }

  /** Hex mode encodes exactly the bytes the digits spell: with an even number of digits,
      spelling the bytes out again gives the digits, whatever separators stood between them. */
  lemma {:induction false} HexSpellsBytes(s: string)
    requires |HexDigits(s)| % 2 == 0
    ensures forall k :: 0 <= k < |HexBytes(s)| ==> HexBytes(s)[k] < 256
    ensures Spell(HexBytes(s)) == AllLower(HexDigits(s))
  {
    SpellPairs(HexDigits(s), 0);
    assert AllLower(HexDigits(s))[0..] == AllLower(HexDigits(s));
  }

  /** An odd last digit is a byte of its own, below 16: the text reads as if a zero stood in front of that digit. */
  lemma {:induction false} OddDigitIsPadded(s: string)
    requires |HexDigits(s)| % 2 == 1
    ensures var digits := HexDigits(s);
            var n := |digits| - 1;
            && AllBytes(HexBytes(s))
            && HexBytes(s) == PairsFrom(digits[..n], 0) + [HexValue(digits[n]).value]
            && HexBytes(s)[|HexBytes(s)| - 1] < 16
            && Spell(HexBytes(s)) == AllLower(digits[..n]) + ['0', ToLower(digits[n])]
  {
    hide HexValue, LowerHex, ToLower;
    var digits := HexDigits(s);
    var n := |digits| - 1;
    PairsBelow(digits, 0);
    PairsSplit(digits, 0);
    SpellPairs(digits[..n], 0);
    assert AllLower(digits[..n])[0..] == AllLower(digits[..n]);
    LowerHexOf(digits[n]);
    SpellLast(PairsFrom(digits[..n], 0), HexValue(digits[n]).value);
    ZeroDigit();
  }

  lemma {:induction false} ZeroDigit()
    ensures LowerHex(0) == '0'
  {
  }

  lemma {:induction false} PairsStep(digits: string, i: nat)
    requires forall k :: 0 <= k < |digits| ==> HexValue(digits[k]).Some?
    ensures PairsFrom(digits, i) == if i >= |digits| then [] else [PairValue(digits, i)] + PairsFrom(digits, i + 2)
  {
    hide HexValue, PairValue;
  }

  lemma {:induction false} PairsSplit(digits: string, i: nat)
    requires forall k :: 0 <= k < |digits| ==> HexValue(digits[k]).Some?
    requires i < |digits| && (|digits| - i) % 2 == 1
    ensures var n := |digits| - 1;
            PairsFrom(digits, i) == PairsFrom(digits[..n], i) + [HexValue(digits[n]).value]
    decreases |digits| - i
  {
    hide HexValue, PairsFrom;
    var n := |digits| - 1;
    PairsStep(digits, i);
    PairsStep(digits[..n], i);
    if i < n {
      PairsSplit(digits, i + 2);
      assert PairValue(digits, i) == PairValue(digits[..n], i);
    } else {
      PairsStep(digits, i + 2);
    }
  }

  lemma {:induction false} SpellLast(bytes: seq<nat>, b: nat)
    requires AllBytes(bytes) && b < 16
    ensures Spell(bytes + [b]) == Spell(bytes) + [LowerHex(0), LowerHex(b)]
  {
    hide LowerHex;
    if bytes == [] {
      assert (bytes + [b])[1..] == [];
    } else {
      assert (bytes + [b])[1..] == bytes[1..] + [b];
      SpellLast(bytes[1..], b);
    }
  }

  lemma {:induction false} SpellDigits(bytes: seq<nat>)
    requires forall i :: 0 <= i < |bytes| ==> bytes[i] < 256
    ensures HexDigits(Spell(bytes)) == Spell(bytes) && |Spell(bytes)| == 2 * |bytes|
  {
    if bytes != [] {
      SpellDigits(bytes[1..]);
      var hi, lo, rest := LowerHex(bytes[0] / 16), LowerHex(bytes[0] % 16), Spell(bytes[1..]);
      assert Spell(bytes) == [hi] + ([lo] + rest);
      assert ([hi] + ([lo] + rest))[1..] == [lo] + rest && ([lo] + rest)[1..] == rest;
      assert HexDigits([lo] + rest) == [lo] + HexDigits(rest);
    }
  }

  lemma {:induction false} PairsOfSpell(bytes: seq<nat>, digits: string, i: nat)
    requires forall k :: 0 <= k < |bytes| ==> bytes[k] < 256
    requires forall k :: 0 <= k < |digits| ==> HexValue(digits[k]).Some?
    requires i <= |digits| && digits[i..] == Spell(bytes)
    ensures PairsFrom(digits, i) == bytes
    decreases |bytes|
  {
    if bytes != [] {
      assert digits[i] == digits[i..][0] && digits[i + 1] == digits[i..][1];
      assert digits[i + 2..] == digits[i..][2..] == Spell(bytes[1..]);
      PairsOfSpell(bytes[1..], digits, i + 2);
    }
  }

  /** Any text whose hex digits spell some bytes yields those bytes. */
  lemma {:induction false} HexRoundTrip(bytes: seq<nat>, s: string)
    requires forall i :: 0 <= i < |bytes| ==> bytes[i] < 256
    requires HexDigits(s) == Spell(bytes)
    ensures HexBytes(s) == bytes
  {
    assert HexDigits(s)[0..] == Spell(bytes);
    PairsOfSpell(bytes, HexDigits(s), 0);
  }

  // ----- The emitted `_encode` -----

  datatype Encoding = AlreadyBase64 | Hex | Text

  predicate AllBytes(ns: seq<nat>) {
    forall i :: 0 <= i < |ns| ==> ns[i] < 256
  }

  function ToBytes(ns: seq<nat>): seq<bv8>
    requires AllBytes(ns)
  {
    seq(|ns|, i requires 0 <= i < |ns| => ns[i] as bv8)
  }

  /** `charCodeAt(j) & 0xff` for each character. */
  function LowBytes(s: string): (ns: seq<nat>)
    ensures AllBytes(ns)
  {
    seq(|s|, i requires 0 <= i < |s| => s[i] as nat % 256)
  }

  lemma {:induction false} HexIsBytes(value: string)
    ensures AllBytes(HexBytes(value))
  {
    PairsBelow(HexDigits(value), 0);
  }

  method EncodeValue(value: string, encoding: Encoding) returns (out: string)
    ensures encoding == AlreadyBase64 ==> out == value
    ensures encoding == Hex ==> AllBytes(HexBytes(value)) && Decode(out) == Some(ToBytes(HexBytes(value)))
    ensures encoding == Text ==> Decode(out) == Some(ToBytes(LowBytes(value)))
  {
    hide HexBytes, LowBytes, EncodeJs, Decode, ToBytes;
    if encoding == AlreadyBase64 {
      return value;
    }
    var ns: seq<nat>;
    if encoding == Hex {
      ns := ParseHex(value);
      HexIsBytes(value);
    } else {
      ns := LowBytes(value);
    }
    out := ToBase64Js(ToBytes(ns));
    DecodeInvertsEncode(ToBytes(ns), 0);
    assert ToBytes(ns)[0..] == ToBytes(ns);
  }

  /** A text as its character codes. */
  function Codes(s: string): seq<nat> {
    seq(|s|, i requires 0 <= i < |s| => s[i] as nat)
  }

  /** Text mode of the JavaScript client keeps exactly the Latin-1 texts. */
  lemma {:induction false} TextKeepsLatin1(s: string)
    ensures LowBytes(s) == Codes(s) <==> forall i :: 0 <= i < |s| ==> s[i] as nat < 256
  {
    if exists i :: 0 <= i < |s| && s[i] as nat >= 256 {
      var i :| 0 <= i < |s| && s[i] as nat >= 256;
      assert LowBytes(s)[i] != Codes(s)[i];
    }
  }

  // ----- The same in Lua, where a string is a byte sequence -----

  function AsText(bytes: seq<bv8>): (s: string)
    ensures |s| == |bytes| && forall i :: 0 <= i < |s| ==> s[i] as nat == bytes[i] as nat
  {
    seq(|bytes|, i requires 0 <= i < |bytes| => bytes[i] as char)
  }

  /** `tonumber(hex:sub(i, i + 1), 16)` of each pair, as the bytes of a string. */
  method ParseHexLua(value: seq<bv8>) returns (bin: seq<bv8>)
    ensures AllBytes(HexBytes(AsText(value))) && bin == ToBytes(HexBytes(AsText(value)))
  {
    hide HexValue, HexDigits;
    var hex := HexDigits(AsText(value));
    PairsBelow(hex, 0);
    bin := [];
    var i := 0;
    while i < |hex|
      invariant AllBytes(PairsFrom(hex, 0)) && AllBytes(PairsFrom(hex, i))
      invariant bin + ToBytes(PairsFrom(hex, i)) == ToBytes(PairsFrom(hex, 0))
    {
      PairsBelow(hex, i + 2);
      var b := PairValue(hex, i);
      assert ToBytes([b] + PairsFrom(hex, i + 2)) == [b as bv8] + ToBytes(PairsFrom(hex, i + 2));
      assert bin + ([b as bv8] + ToBytes(PairsFrom(hex, i + 2))) == (bin + [b as bv8]) + ToBytes(PairsFrom(hex, i + 2));
      bin := bin + [b as bv8];
      i := i + 2;
    }
  }

  /** `SerialStudio._encode` of the Lua client: Text mode passes the bytes of the string on as they are. */
  method EncodeValueLua(value: seq<bv8>, encoding: Encoding) returns (out: string)
    ensures encoding == AlreadyBase64 ==> out == AsText(value)
    ensures encoding == Hex ==>
              && AllBytes(HexBytes(AsText(value)))
              && Decode(out) == Some(ToBytes(HexBytes(AsText(value))))
    ensures encoding == Text ==> Decode(out) == Some(value)
  {
    hide HexBytes, EncodeJs, EncodeLua, Decode, ToBytes;
    if encoding == AlreadyBase64 {
      return AsText(value);
    }
    var bytes := value;
    if encoding == Hex {
      bytes := ParseHexLua(value);
    }
    out := ToBase64Lua(bytes);
    EncodersAgree(bytes, 0);
    DecodeInvertsEncode(bytes, 0);
    assert bytes[0..] == bytes;
  }

  /** Section 3 of RFC 3629. */
  function Utf8(s: string): seq<bv8> {
    if s == [] then [] else Utf8(s[..|s| - 1]) + Utf8Of(s[|s| - 1] as nat)
  }

  function Utf8Of(n: nat): seq<bv8>
    requires n < 0x110000
  {
    if n < 0x80 then [n as bv8]
    else if n < 0x800 then [(0xC0 + n / 64) as bv8, (0x80 + n % 64) as bv8]
    else if n < 0x10000 then [(0xE0 + n / 4096) as bv8, (0x80 + n / 64 % 64) as bv8, (0x80 + n % 64) as bv8]
    else
      [(0xF0 + n / 262144) as bv8, (0x80 + n / 4096 % 64) as bv8, (0x80 + n / 64 % 64) as bv8, (0x80 + n % 64) as bv8]
  }

  predicate Ascii(s: string) {
    forall i :: 0 <= i < |s| ==> s[i] as nat < 0x80
  }

  lemma {:induction false} Utf8OfOne(n: nat)
    requires n < 0x110000
    ensures |Utf8Of(n)| >= 1 && (|Utf8Of(n)| == 1 <==> n < 0x80)
    ensures n < 0x80 ==> Utf8Of(n) == [n as bv8]
  {
  }

  lemma {:induction false} LowLast(s: string)
    requires s != []
    ensures var n := |s| - 1; ToBytes(LowBytes(s)) == ToBytes(LowBytes(s[..n])) + [(s[n] as nat % 256) as bv8]
  {
  }

  lemma {:induction false} AsciiLast(s: string)
    requires s != []
    ensures var n := |s| - 1; Ascii(s) <==> Ascii(s[..n]) && s[n] as nat < 0x80
  {
    var n := |s| - 1;
    assert s == s[..n] + [s[n]];
  }

  lemma {:induction false} Utf8Length(s: string)
    ensures |Utf8(s)| >= |s|
    ensures |Utf8(s)| == |s| <==> Ascii(s)
    ensures Ascii(s) ==> Utf8(s) == ToBytes(LowBytes(s))
  {
    hide Utf8Of, ToBytes, LowBytes, Ascii;
    if s == [] {
      EmptyIsAscii();
    } else {
      var n := |s| - 1;
      Utf8Length(s[..n]);
      Utf8OfOne(s[n] as nat);
      LowLast(s);
      AsciiLast(s);
    }
  }

  lemma {:induction false} EmptyIsAscii()
    ensures Ascii("") && ToBytes(LowBytes("")) == []
  {
  }

  /** In Text mode the two clients send the same bytes for a text, in Lua in its UTF-8 form, if and only if it is
      plain ASCII. */
  lemma {:induction false} TextModesAgree(s: string)
    ensures EncodeJs(ToBytes(LowBytes(s)), 0) == EncodeLua(Utf8(s), 0) <==> Ascii(s)
  {
    hide EncodeJs, EncodeLua, Decode, ToBytes, Utf8, Ascii;
    var low, utf8 := ToBytes(LowBytes(s)), Utf8(s);
    EncodersAgree(utf8, 0);
    DecodeInvertsEncode(low, 0);
    DecodeInvertsEncode(utf8, 0);
    assert low[0..] == low && utf8[0..] == utf8;
    Utf8Length(s);
    BytesLength(LowBytes(s));
  }

  lemma {:induction false} BytesLength(ns: seq<nat>)
    requires AllBytes(ns)
    ensures |ToBytes(ns)| == |ns|
  {
  }

  // ----- Which characters Hex mode reads -----

  const HEX_CHARS := "0123456789abcdefABCDEF"

  lemma {:induction false} HexCharsAre(c: char)
    ensures HexValue(c).Some? <==> c in HEX_CHARS
  {
    assert HEX_CHARS == ['0', '1', '2', '3', '4', '5', '6', '7', '8', '9'] + ['a', 'b', 'c', 'd', 'e', 'f']
                        + ['A', 'B', 'C', 'D', 'E', 'F'];
    var n := c as int;
    assert '0' as int <= n <= '9' as int ==> c == ("0123456789")[n - '0' as int];
    assert 'a' as int <= n <= 'f' as int ==> c == ("abcdef")[n - 'a' as int];
    assert 'A' as int <= n <= 'F' as int ==> c == ("ABCDEF")[n - 'A' as int];
  }

  /** `ks` are the places of the hex characters of `s`, in order, and `digits` holds them. */
  ghost predicate AreHexOf(s: string, ks: seq<nat>, digits: string) {
    && (forall i, j :: 0 <= i < j < |ks| ==> ks[i] < ks[j])
    && (forall k: nat :: k in ks <==> k < |s| && s[k] in HEX_CHARS)
    && |digits| == |ks| && forall i :: 0 <= i < |ks| ==> ks[i] < |s| && digits[i] == s[ks[i]]
  }

  lemma {:induction false} HexDigitsLast(s: string)
    requires s != []
    ensures var n := |s| - 1;
            HexDigits(s) == HexDigits(s[..n]) + if HexValue(s[n]).Some? then [s[n]] else []
    decreases |s|
  {
    hide HexValue;
    var n := |s| - 1;
    if n > 0 {
      HexDigitsLast(s[1..]);
      assert s[1..][..n - 1] == s[..n][1..];
    }
  }

  lemma {:induction false} MoreHex(s: string, ks: seq<nat>, digits: string)
    requires s != [] && AreHexOf(s[..|s| - 1], ks, digits)
    ensures var n := |s| - 1;
            if s[n] in HEX_CHARS then AreHexOf(s, ks + [n], digits + [s[n]]) else AreHexOf(s, ks, digits)
  {
    hide HEX_CHARS;
    assert forall i :: 0 <= i < |ks| ==> ks[i] in ks;
  }

  lemma {:induction false} NoHex()
    ensures AreHexOf("", [], HexDigits(""))
  {
  }

  /** Hex mode reads exactly the hex characters, of either case, and skips everything else. */
  lemma {:induction false} HexDigitsExactly(s: string) returns (ks: seq<nat>)
    ensures AreHexOf(s, ks, HexDigits(s))
    decreases |s|
  {
    hide HexValue, AreHexOf, HEX_CHARS, HexDigits;
    ks := [];
    if s == [] {
      NoHex();
    } else {
      var n := |s| - 1;
      ks := HexDigitsExactly(s[..n]);
      HexDigitsLast(s);
      HexCharsAre(s[n]);
      MoreHex(s, ks, HexDigits(s[..n]));
      if s[n] in HEX_CHARS {
        ks := ks + [n];
      } else {
        assert HexDigits(s[..n]) + [] == HexDigits(s[..n]);
      }
    }
  }
}
