/** The Base 32 encoding of section 6 of RFC 4648: the encoder, and a decoder to hold it against. */
module Base32 {
  import opened Collections

  type Byte = bv8

  const TABLE := "ABCDEFGHIJKLMNOPQRSTUVWXYZ234567"
  const PADDING := '='
  const BLOCK_SIZE := 5
  const BUFFER_SIZE := 8

  // ---- groups of 40 bits, as the standard cuts them up ----

  function Concat(b0: Byte, b1: Byte, b2: Byte, b3: Byte, b4: Byte): bv40 {
    ((b0 as bv40) << 32) | ((b1 as bv40) << 24) | ((b2 as bv40) << 16) | ((b3 as bv40) << 8) | (b4 as bv40)
  }

  function Group(b: seq<Byte>): bv40
    requires |b| == 5
  {
    Concat(b[0], b[1], b[2], b[3], b[4])
  }

  /** The k-th quintet of a group, the most significant first. */
  function Quintet(g: bv40, k: nat): bv8
    requires k < 8
    ensures Quintet(g, k) < 32
  {
    if k == 0 then ((g >> 35) & 0x1F) as bv8
    else if k == 1 then ((g >> 30) & 0x1F) as bv8
    else if k == 2 then ((g >> 25) & 0x1F) as bv8
    else if k == 3 then ((g >> 20) & 0x1F) as bv8
    else if k == 4 then ((g >> 15) & 0x1F) as bv8
    else if k == 5 then ((g >> 10) & 0x1F) as bv8
    else if k == 6 then ((g >> 5) & 0x1F) as bv8
    else (g & 0x1F) as bv8
  }

  function Joined(q0: bv8, q1: bv8, q2: bv8, q3: bv8, q4: bv8, q5: bv8, q6: bv8, q7: bv8): bv40 {
    ((q0 as bv40) << 35) | ((q1 as bv40) << 30) | ((q2 as bv40) << 25) | ((q3 as bv40) << 20)
    | ((q4 as bv40) << 15) | ((q5 as bv40) << 10) | ((q6 as bv40) << 5) | (q7 as bv40)
  }

  function FromQuintets(q: seq<bv8>): bv40
    requires |q| == 8
  {
    Joined(q[0], q[1], q[2], q[3], q[4], q[5], q[6], q[7])
  }

  /** The octets of a group. */
  function Octets(g: bv40): (r: seq<Byte>)
    ensures |r| == 5
  {
    [((g >> 32) & 0xFF) as bv8, ((g >> 24) & 0xFF) as bv8, ((g >> 16) & 0xFF) as bv8, ((g >> 8) & 0xFF) as bv8,
      (g & 0xFF) as bv8]
  }

  lemma OctetsBack(b: seq<Byte>)
    requires |b| == 5
    ensures Octets(Group(b)) == b
  {
    ConcatBack(b[0], b[1], b[2], b[3], b[4]);
  }

  lemma ConcatBack(b0: Byte, b1: Byte, b2: Byte, b3: Byte, b4: Byte)
    ensures ((Concat(b0, b1, b2, b3, b4) >> 32) & 0xFF) as bv8 == b0 &&
      ((Concat(b0, b1, b2, b3, b4) >> 24) & 0xFF) as bv8 == b1
    ensures ((Concat(b0, b1, b2, b3, b4) >> 16) & 0xFF) as bv8 == b2 &&
      ((Concat(b0, b1, b2, b3, b4) >> 8) & 0xFF) as bv8 == b3
    ensures (Concat(b0, b1, b2, b3, b4) & 0xFF) as bv8 == b4
  {
  }

  lemma QuintetsBack(g: bv40, q: seq<bv8>)
    requires |q| == 8 && forall k :: 0 <= k < 8 ==> q[k] == Quintet(g, k)
    ensures FromQuintets(q) == g
  {
    hide Quintet, Joined;
    JoinedBack(g);
  }

  lemma JoinedBack(g: bv40)
    ensures Joined(Quintet(g, 0), Quintet(g, 1), Quintet(g, 2), Quintet(g, 3),
                   Quintet(g, 4), Quintet(g, 5), Quintet(g, 6), Quintet(g, 7)) == g
  {
  }

  // ---- the same quintets, as the encoder computes them ----

  function First5(a: Byte): bv8 { (a >> 3) & 0x1F }
  function Last3First2(a: Byte, b: Byte): bv8 { ((a << 2) & 0x1C) + ((b >> 6) & 0x03) }
  function Middle5(a: Byte): bv8 { (a >> 1) & 0x1F }
  function Last1First4(a: Byte, b: Byte): bv8 { ((a << 4) & 0x10) + ((b >> 4) & 0x0F) }
  function Last4First1(a: Byte, b: Byte): bv8 { ((a << 1) & 0x1E) + ((b >> 7) & 0x01) }
  function Inner5(a: Byte): bv8 { (a >> 2) & 0x1F }
  function Last2First3(a: Byte, b: Byte): bv8 { ((a << 3) & 0x18) + ((b >> 5) & 0x07) }
  function Last5(a: Byte): bv8 { (a << 0) & 0x1F }

  /** The encoder's shifts and masks pick out the quintets. */
  lemma ShiftsPick(b0: Byte, b1: Byte, b2: Byte, b3: Byte, b4: Byte)
    ensures var g := Concat(b0, b1, b2, b3, b4);
            && First5(b0) == Quintet(g, 0) && Last3First2(b0, b1) == Quintet(g, 1) && Middle5(b1) == Quintet(g, 2)
            && Last1First4(b1, b2) == Quintet(g, 3) && Last4First1(b2, b3) == Quintet(g, 4)
            && Inner5(b3) == Quintet(g, 5)
            && Last2First3(b3, b4) == Quintet(g, 6) && Last5(b4) == Quintet(g, 7)
  {
  }

  // ---- characters ----

  function EncodeChar(v: bv8): char
    requires v < 32
  {
    TABLE[v as int]
  }

  /** The value of a character in the alphabet of the standard. */
  function DecodeChar(c: char): (v: Option<bv8>)
    ensures v.Some? ==> v.value < 32
  {
    if 'A' <= c <= 'Z' then Some((c - 'A') as int as bv8)
    else if '2' <= c <= '7' then Some((c - '2') as int as bv8 + 26)
    else None
  }

  lemma CharBack(v: bv8)
    requires v < 32
    ensures DecodeChar(EncodeChar(v)) == Some(v) && EncodeChar(v) != PADDING
  {
  }

  /** The eight characters that stand for a group. */
  function GroupChars(b: seq<Byte>): (r: string)
    requires |b| == 5
    ensures |r| == 8 && forall k :: 0 <= k < 8 ==> r[k] == EncodeChar(Quintet(Group(b), k))
  {
    seq(8, k requires 0 <= k < 8 => EncodeChar(Quintet(Group(b), k)))
  }

  // ---- the encoder ----

  method Base32Encode5(src: seq<Byte>, dst: array<char>)
    requires |src| == BLOCK_SIZE && dst.Length == BUFFER_SIZE
    modifies dst
    ensures dst[..] == GroupChars(src)
  {
    ShiftsPick(src[0], src[1], src[2], src[3], src[4]);
    hide Quintet, Concat, EncodeChar, First5, Last3First2, Middle5, Last1First4, Last4First1, Inner5, Last2First3,
      Last5;
    dst[0] := EncodeChar(First5(src[0]));
    dst[1] := EncodeChar(Last3First2(src[0], src[1]));
    dst[2] := EncodeChar(Middle5(src[1]));
    dst[3] := EncodeChar(Last1First4(src[1], src[2]));
    dst[4] := EncodeChar(Last4First1(src[2], src[3]));
    dst[5] := EncodeChar(Inner5(src[3]));
    dst[6] := EncodeChar(Last2First3(src[3], src[4]));
    dst[7] := EncodeChar(Last5(src[4]));
  }

  /** How many characters of the last group stand for no input. */
  function PadCount(remain: nat): (n: nat)
    requires remain < 5
    ensures n <= 6
  {
    match remain
    case 0 => 0
    case 1 => 6
    case 2 => 4
    case 3 => 3
    case 4 => 1
  }

  function Zeros(n: nat): (r: seq<Byte>)
    ensures |r| == n
  {
    seq(n, _ => 0 as bv8)
  }

  function Pads(n: nat): (r: string)
    ensures |r| == n && forall k :: 0 <= k < n ==> r[k] == PADDING
  {
    seq(n, _ => PADDING)
  }

  /** The characters of a last group of 1 to 4 octets. */
  function LastChars(b: seq<Byte>): (r: string)
    requires 0 < |b| < 5
    ensures |r| == 8 - PadCount(|b|)
  {
    GroupChars(b + Zeros(5 - |b|))[..8 - PadCount(|b|)]
  }

  /** The encoding without padding. */
  function Data(input: seq<Byte>): string {
    if |input| == 0 then ""
    else if |input| < 5 then LastChars(input)
    else GroupChars(input[..5]) + Data(input[5..])
  }

  function Encoded(input: seq<Byte>, padding: bool): string {
    Data(input) + if padding then Pads(PadCount(|input| % 5)) else ""
  }

  method EncodeString(input: seq<Byte>, padding: bool) returns (res: string)
    ensures res == Encoded(input, padding)
  {
    res := "";
    var buffer := new char[BUFFER_SIZE];
    var at := 0;
    while at + BLOCK_SIZE <= |input|
      invariant 0 <= at <= |input| && at % 5 == 0 && res + Data(input[at..]) == Data(input)
    {
      Base32Encode5(input[at..at + BLOCK_SIZE], buffer);
      BlockMore(res, input, at);
      res := res + buffer[..];
      at := at + BLOCK_SIZE;
    }
    res := EncodeRest(res, input[at..], padding, buffer);
    RestDone(input, at);
  }

  /** The last group, filled up with zeros; then the padding. */
  method EncodeRest(res: string, input: seq<Byte>, padding: bool, buffer: array<char>) returns (res': string)
    requires |input| < BLOCK_SIZE && buffer.Length == BUFFER_SIZE
    modifies buffer
    ensures res' == res + Data(input) + if padding then Pads(PadCount(|input|)) else ""
  {
    res' := res;
    var remain := |input|;
    if remain != 0 {
      // What is missing from the last group counts as 0.
      var extended := input + Zeros(BLOCK_SIZE - remain);
      Base32Encode5(extended, buffer);
      hide GroupChars;
      var numPad := PadCount(remain);
      res' := res' + buffer[..BUFFER_SIZE - numPad];
      assert buffer[..BUFFER_SIZE - numPad] == buffer[..][..BUFFER_SIZE - numPad];
      if padding {
        for k := 0 to numPad
          invariant res' == res + LastChars(input) + Pads(k)
        {
          assert Pads(k + 1) == Pads(k) + [PADDING];
          Associate(res + LastChars(input), Pads(k), [PADDING]);
          res' := res' + [PADDING];
        }
      }
    }
  }

  lemma RestDone(input: seq<Byte>, at: nat)
    requires at <= |input| < at + 5 && at % 5 == 0
    ensures |input[at..]| == |input| % 5
  {
  }

  lemma BlockMore(res: string, input: seq<Byte>, at: nat)
    requires at + 5 <= |input| && res + Data(input[at..]) == Data(input)
    ensures (res + GroupChars(input[at..at + 5])) + Data(input[at + 5..]) == Data(input)
  {
    assert input[at..][..5] == input[at..at + 5];
    assert input[at..][5..] == input[at + 5..];
    assert Data(input[at..]) == GroupChars(input[at..at + 5]) + Data(input[at + 5..]);
    hide GroupChars, Data;
    Associate(res, GroupChars(input[at..at + 5]), Data(input[at + 5..]));
  }

  // ---- the length ----

  /** Every started group takes eight characters with padding, and every started quintet one without. */
  lemma {:induction false} EncodedLength(input: seq<Byte>)
    ensures |Data(input)| == (8 * |input| + 4) / 5
    ensures |Encoded(input, false)| == (8 * |input| + 4) / 5
    ensures |Encoded(input, true)| == 8 * ((|input| + 4) / 5)
  {
    hide GroupChars, LastChars;
    if |input| >= 5 {
      EncodedLength(input[5..]);
      LengthStep(|input| - 5);
    }
  }

  lemma LengthStep(n: nat)
    ensures (8 * (n + 5) + 4) / 5 == (8 * n + 4) / 5 + 8
    ensures (n + 5 + 4) / 5 == (n + 4) / 5 + 1 && (n + 5) % 5 == n % 5
  {
  }

  // ---- a decoder after the standard ----

  function DecodeChars(s: string): (r: Option<seq<bv8>>)
    ensures r.Some? ==> |r.value| == |s|
  {
    if s == "" then Some([])
    else
      match (DecodeChar(s[0]), DecodeChars(s[1..]))
      case (Some(v), Some(vs)) => Some([v] + vs)
      case _ => None
  }

  /** How many octets the characters of a last group stand for; none for lengths that cannot occur. */
  function OctetCount(chars: nat): Option<nat> {
    match chars
    case 2 => Some(1)
    case 4 => Some(2)
    case 5 => Some(3)
    case 7 => Some(4)
    case _ => None
  }

  function DecodeData(s: string): Option<seq<Byte>>
    decreases |s|
  {
    if s == "" then Some([])
    else if |s| < 8 then
      match (DecodeChars(s), OctetCount(|s|))
      case (Some(q), Some(n)) => Some(Octets(FromQuintets(q + Zeros(8 - |s|)))[..n])
      case _ => None
    else
      match (DecodeChars(s[..8]), DecodeData(s[8..]))
      case (Some(q), Some(rest)) => Some(Octets(FromQuintets(q)) + rest)
      case _ => None
  }

  /** The characters before any padding. */
  function Unpadded(s: string): (data: string)
    ensures |data| <= |s|
  {
    if s == "" || s[0] == '=' then "" else [s[0]] + Unpadded(s[1..])
  }

  /** With padding, whole groups of eight characters are demanded; without it, no padding may occur. */
  function Decode(s: string, padding: bool): Option<seq<Byte>> {
    var data := Unpadded(s);
    var complete := |s| % 8 == 0 && |s| < |data| + 8 && forall k :: |data| <= k < |s| ==> s[k] == '=';
    if (if padding then complete else s == data)
    then DecodeData(data) else None
  }

  // ---- the round trip ----

  lemma {:induction false} CharsBack(s: string, q: seq<bv8>)
    requires |s| == |q| && forall k :: 0 <= k < |q| ==> q[k] < 32 && s[k] == EncodeChar(q[k])
    ensures DecodeChars(s) == Some(q)
  {
    hide EncodeChar, DecodeChar;
    if |s| > 0 {
      CharBack(q[0]);
      CharsBack(s[1..], q[1..]);
      assert q == [q[0]] + q[1..];
    } else {
      assert q == [];
    }
  }

  function Quintets(g: bv40): (q: seq<bv8>)
    ensures |q| == 8 && forall k :: 0 <= k < 8 ==> q[k] == Quintet(g, k)
  {
    seq(8, k requires 0 <= k < 8 => Quintet(g, k))
  }

  lemma GroupBack(b: seq<Byte>)
    requires |b| == 5
    ensures DecodeChars(GroupChars(b)) == Some(Quintets(Group(b))) && FromQuintets(Quintets(Group(b))) == Group(b)
    ensures Octets(FromQuintets(Quintets(Group(b)))) == b
  {
    hide Quintet, EncodeChar, Group;
    CharsBack(GroupChars(b), Quintets(Group(b)));
    QuintetsBack(Group(b), Quintets(Group(b)));
    OctetsBack(b);
  }

  /** With the last octets zero, the last quintets are zero: dropping their characters loses nothing. */
  lemma ZeroQuintets(b0: Byte, b1: Byte, b2: Byte, b3: Byte)
    ensures Quintet(Concat(b0, 0, 0, 0, 0), 2) == 0 && Quintet(Concat(b0, 0, 0, 0, 0), 3) == 0
    ensures Quintet(Concat(b0, 0, 0, 0, 0), 4) == 0 && Quintet(Concat(b0, 0, 0, 0, 0), 5) == 0
    ensures Quintet(Concat(b0, 0, 0, 0, 0), 6) == 0 && Quintet(Concat(b0, 0, 0, 0, 0), 7) == 0
    ensures Quintet(Concat(b0, b1, 0, 0, 0), 4) == 0 && Quintet(Concat(b0, b1, 0, 0, 0), 5) == 0
    ensures Quintet(Concat(b0, b1, 0, 0, 0), 6) == 0 && Quintet(Concat(b0, b1, 0, 0, 0), 7) == 0
    ensures Quintet(Concat(b0, b1, b2, 0, 0), 5) == 0 && Quintet(Concat(b0, b1, b2, 0, 0), 6) == 0
    ensures Quintet(Concat(b0, b1, b2, 0, 0), 7) == 0 && Quintet(Concat(b0, b1, b2, b3, 0), 7) == 0
  {
  }

  lemma LastZero(b: seq<Byte>, k: nat)
    requires 0 < |b| < 5 && 8 - PadCount(|b|) <= k < 8
    ensures Quintet(Group(b + Zeros(5 - |b|)), k) == 0
  {
    hide Quintet, Concat;
    var e := b + Zeros(5 - |b|);
    ZeroQuintets(e[0], e[1], e[2], e[3]);
  }

  lemma LastBack(b: seq<Byte>)
    requires 0 < |b| < 5
    ensures DecodeData(LastChars(b)) == Some(b)
  {
    hide Quintet, EncodeChar, Concat, Octets, FromQuintets;
    var e := b + Zeros(5 - |b|);
    var n := 8 - PadCount(|b|);
    var q := Quintets(Group(e));
    CharsBack(LastChars(b), q[..n]);
    forall k | n <= k < 8 ensures q[k] == 0 {
      LastZero(b, k);
    }
    assert q[..n] + Zeros(8 - n) == q;
    GroupBack(e);
    assert e[..|b|] == b;
  }

  lemma {:induction false} DataBack(input: seq<Byte>)
    ensures DecodeData(Data(input)) == Some(input)
  {
    hide GroupChars, LastChars, Octets, FromQuintets, DecodeChars;
    if 0 < |input| < 5 {
      LastBack(input);
    } else if |input| >= 5 {
      var group := GroupChars(input[..5]);
      GroupBack(input[..5]);
      DataBack(input[5..]);
      FirstGroup(group, Data(input[5..]));
      assert input == input[..5] + input[5..];
    }
  }

  lemma FirstGroup(group: string, rest: string)
    requires |group| == 8
    ensures (group + rest)[..8] == group && (group + rest)[8..] == rest
  {
  }

  lemma {:induction false} NoPadding(input: seq<Byte>)
    ensures PADDING !in Data(input)
  {
    hide EncodeChar, Quintet;
    forall v | v < 32 ensures EncodeChar(v) != PADDING {
      CharBack(v);
    }
    if |input| >= 5 {
      NoPadding(input[5..]);
    }
  }

  lemma {:induction false} UnpaddedBack(data: string, n: nat)
    requires PADDING !in data
    ensures Unpadded(data + Pads(n)) == data && Unpadded(data) == data
  {
    if data == "" {
      assert data + Pads(n) == Pads(n);
    } else {
      assert (data + Pads(n))[1..] == data[1..] + Pads(n);
      UnpaddedBack(data[1..], n);
    }
  }

  /** Decoding what has been encoded gives the input back, with padding and without. */
  lemma RoundTrip(input: seq<Byte>, padding: bool)
    ensures Decode(Encoded(input, padding), padding) == Some(input)
  {
    hide Data, DecodeData;
    var n := PadCount(|input| % 5);
    NoPadding(input);
    UnpaddedBack(Data(input), n);
    DataBack(input);
    EncodedLength(input);
    assert Data(input) + "" == Data(input);
  }

  /** Different inputs have different encodings. */
  lemma EncodedInjective(a: seq<Byte>, b: seq<Byte>, padding: bool)
    requires Encoded(a, padding) == Encoded(b, padding)
    ensures a == b
  {
    RoundTrip(a, padding);
    RoundTrip(b, padding);
  }
}
