/** Base64 as used for payment headers: the encoder of section 4 of RFC 4648, and the lenient
    decoder of Python's `base64.b64decode(validate=False)`, which skips characters outside the
    alphabet, stops at a completed padding, and fails on an incomplete last group. */
module Base64 {
  import opened Wrappers

  type Sextet = x: int | 0 <= x < 64

  datatype Malformed = Malformed

  // ----- the alphabet -----

  function CharOf(v: Sextet): char {
    if v < 26 then 'A' + v as char
    else if v < 52 then 'a' + (v - 26) as char
    else if v < 62 then '0' + (v - 52) as char
    else if v == 62 then '+'
    else '/'
  }

  function ValueOf(c: char): Option<Sextet> {
    if 'A' <= c <= 'Z' then Some(c as int - 'A' as int)
    else if 'a' <= c <= 'z' then Some(c as int - 'a' as int + 26)
    else if '0' <= c <= '9' then Some(c as int - '0' as int + 52)
    else if c == '+' then Some(62)
    else if c == '/' then Some(63)
    else None
  }

  lemma CharsReadBack(v: Sextet)
    ensures ValueOf(CharOf(v)) == Some(v) && CharOf(v) != '='
  {
  }

  /** The alphabet of the RFC: A to Z, a to z, 0 to 9, + and /, one after the other. */
  lemma AlphabetIs(v: Sextet)
    ensures CharOf(0) == 'A' && CharOf(25) == 'Z' && CharOf(26) == 'a' && CharOf(51) == 'z'
    ensures CharOf(52) == '0' && CharOf(61) == '9' && CharOf(62) == '+' && CharOf(63) == '/'
    ensures v < 61 && v !in {25, 51} ==> CharOf(v + 1) == CharOf(v) + 1 as char
  {
  }

  // ----- encoding -----

  function EncodeOne(b0: Byte): string {
    [CharOf(b0 / 4), CharOf(b0 % 4 * 16), '=', '=']
  }

  function EncodeTwo(b0: Byte, b1: Byte): string {
    [CharOf(b0 / 4), CharOf(b0 % 4 * 16 + b1 / 16), CharOf(b1 % 16 * 4), '=']
  }

  function EncodeThree(b0: Byte, b1: Byte, b2: Byte): string {
    [CharOf(b0 / 4), CharOf(b0 % 4 * 16 + b1 / 16), CharOf(b1 % 16 * 4 + b2 / 64), CharOf(b2 % 64)]
  }

  function Encode(bs: seq<Byte>): string {
    if bs == [] then ""
    else if |bs| == 1 then EncodeOne(bs[0])
    else if |bs| == 2 then EncodeTwo(bs[0], bs[1])
    else EncodeThree(bs[0], bs[1], bs[2]) + Encode(bs[3..])
  }

  lemma EncodeStep(bs: seq<Byte>)
    ensures |bs| >= 3 ==> Encode(bs) == EncodeThree(bs[0], bs[1], bs[2]) + Encode(bs[3..])
    ensures |bs| == 2 ==> Encode(bs) == EncodeTwo(bs[0], bs[1])
    ensures |bs| == 1 ==> Encode(bs) == EncodeOne(bs[0])
  {
    hide EncodeOne, EncodeTwo, EncodeThree;
  }

  /** The first six bits of the bytes make the first character, the next six the second, and so on;
      missing bytes count as zeros, and a character that has none of their bits is a pad. */
  lemma {:induction false} BitsOf(bs: seq<Byte>, g: nat)
    requires 3 * g < |bs|
    ensures |Encode(bs)| >= 4 * g + 4
    ensures var b0, b1, b2 := bs[3 * g] as int, if 3 * g + 1 < |bs| then bs[3 * g + 1] as int else 0,
                              if 3 * g + 2 < |bs| then bs[3 * g + 2] as int else 0;
      var bits := 65536 * b0 + 256 * b1 + b2;
      && Encode(bs)[4 * g] == CharOf(bits / 262144)
      && Encode(bs)[4 * g + 1] == CharOf(bits / 4096 % 64)
      && Encode(bs)[4 * g + 2] == (if 3 * g + 1 < |bs| then CharOf(bits / 64 % 64) else '=')
      && Encode(bs)[4 * g + 3] == (if 3 * g + 2 < |bs| then CharOf(bits % 64) else '=')
  {
    hide CharOf, Encode;
    if g > 0 {
      GroupLater(bs);
      BitsOf(bs[3..], g - 1);
    } else {
      var b0, b1, b2 := bs[0] as int, if 1 < |bs| then bs[1] as int else 0, if 2 < |bs| then bs[2] as int else 0;
      SixBits(b0, b1, b2);
      FirstGroup(bs);
    }
  }

  lemma GroupLater(bs: seq<Byte>)
    requires |bs| > 3
    ensures |Encode(bs)| == 4 + |Encode(bs[3..])|
    ensures forall k :: 0 <= k < |Encode(bs[3..])| ==> Encode(bs)[4 + k] == Encode(bs[3..])[k]
  {
    hide CharOf;
  }

  lemma FirstGroup(bs: seq<Byte>)
    requires bs != []
    ensures |Encode(bs)| >= 4
    ensures Encode(bs)[..4] == if |bs| == 1 then EncodeOne(bs[0]) else if |bs| == 2 then EncodeTwo(bs[0], bs[1])
                               else EncodeThree(bs[0], bs[1], bs[2])
  {
    hide CharOf;
  }

  lemma SixBits(b0: int, b1: int, b2: int)
    requires 0 <= b0 < 256 && 0 <= b1 < 256 && 0 <= b2 < 256
    ensures var bits := 65536 * b0 + 256 * b1 + b2;
      && bits / 262144 == b0 / 4 && bits / 4096 % 64 == b0 % 4 * 16 + b1 / 16
      && bits / 64 % 64 == b1 % 16 * 4 + b2 / 64 && bits % 64 == b2 % 64
  {
    var bits := 65536 * b0 + 256 * b1 + b2;
    var v0, v1, v2, v3 := b0 / 4, b0 % 4 * 16 + b1 / 16, b1 % 16 * 4 + b2 / 64, b2 % 64;
    assert bits == 64 * (64 * (64 * v0 + v1) + v2) + v3;
    LastSextet(64 * (64 * v0 + v1) + v2, v3);
    LastSextet(64 * v0 + v1, v2);
    LastSextet(v0, v1);
    Divisors(bits);
  }

  lemma LastSextet(high: int, low: int)
    requires 0 <= high && 0 <= low < 64
    ensures (64 * high + low) / 64 == high && (64 * high + low) % 64 == low
  {
  }

  lemma Divisors(bits: int)
    requires 0 <= bits
    ensures bits / 4096 == bits / 64 / 64 && bits / 262144 == bits / 64 / 64 / 64
  {
  }

  // ----- decoding -----

  /** Position in the group of four, the bits left over from the previous character, the
      padding seen in this group, and the bytes so far. */
  datatype State = State(quad: int, left: int, pads: nat, out: seq<Byte>)

  ghost predicate ValidState(st: State) {
    0 <= st.quad < 4 && 0 <= st.left < (if st.quad == 1 then 64 else if st.quad == 2 then 16 else if st.quad == 3 then 4 else 1)
  }

  function Take(st: State, v: Sextet): (r: State)
    requires ValidState(st)
    ensures ValidState(r)
  {
    if st.quad == 0 then State(1, v, 0, st.out)
    else if st.quad == 1 then State(2, v % 16, 0, st.out + [st.left * 4 + v / 16])
    else if st.quad == 2 then State(3, v % 4, 0, st.out + [st.left * 16 + v / 4])
    else State(0, 0, 0, st.out + [st.left * 64 + v])
  }

  function Scan(s: string, st: State): Result<seq<Byte>, Malformed>
    requires ValidState(st)
  {
    if s == "" then
      if st.quad == 0 then Success(st.out) else Failure(Malformed)
    else if s[0] == '=' then
      if st.quad >= 2 && st.quad + st.pads + 1 >= 4 then Success(st.out)
      else Scan(s[1..], if st.quad >= 2 then st.(pads := st.pads + 1) else st)
    else
      match ValueOf(s[0])
      case None => Scan(s[1..], st)
      case Some(v) => Scan(s[1..], Take(st, v))
  }

  /** `base64.b64decode(s, validate=False)`; text outside ASCII is refused. */
  function Decode(s: string): Result<seq<Byte>, Malformed> {
    if exists i :: 0 <= i < |s| && s[i] as int >= 128 then Failure(Malformed)
    else Scan(s, State(0, 0, 0, []))
  }

  function Standard(s: string): (r: string)
    ensures |r| == |s|
  {
    seq(|s|, i requires 0 <= i < |s| => if s[i] == '-' then '+' else if s[i] == '_' then '/' else s[i])
  }

  /** `base64.urlsafe_b64decode(s)` */
  function DecodeUrlSafe(s: string): Result<seq<Byte>, Malformed> {
    Decode(Standard(s))
  }

  // ----- round trip -----

  lemma ScanChar(v: Sextet, rest: string, st: State)
    requires ValidState(st)
    ensures Scan([CharOf(v)] + rest, st) == Scan(rest, Take(st, v))
  {
    CharsReadBack(v);
    assert ([CharOf(v)] + rest)[1..] == rest;
  }

  lemma ScanPair(a: Sextet, b: Sextet, rest: string, st: State)
    requires ValidState(st)
    ensures Scan([CharOf(a), CharOf(b)] + rest, st) == Scan(rest, Take(Take(st, a), b))
  {
    ScanChar(a, [CharOf(b)] + rest, st);
    ScanChar(b, rest, Take(st, a));
    assert [CharOf(a), CharOf(b)] + rest == [CharOf(a)] + ([CharOf(b)] + rest);
  }

  lemma ScanGroup(b0: Byte, b1: Byte, b2: Byte, rest: string, out: seq<Byte>)
    ensures Scan(EncodeThree(b0, b1, b2) + rest, State(0, 0, 0, out))
         == Scan(rest, State(0, 0, 0, out + [b0, b1, b2]))
  {
    var v0, v1, v2, v3 := b0 / 4, b0 % 4 * 16 + b1 / 16, b1 % 16 * 4 + b2 / 64, b2 % 64;
    var st := State(0, 0, 0, out);
    var tail := [CharOf(v2), CharOf(v3)] + rest;
    ScanPair(v0, v1, tail, st);
    ScanPair(v2, v3, rest, Take(Take(st, v0), v1));
    GroupBits(b0, b1, b2, out);
    assert [CharOf(v0), CharOf(v1), CharOf(v2), CharOf(v3)] + rest == [CharOf(v0), CharOf(v1)] + tail;
  }

  // The bits of a group of three bytes survive the regrouping into four sextets.
  lemma GroupBits(b0: Byte, b1: Byte, b2: Byte, out: seq<Byte>)
    ensures Take(Take(Take(Take(State(0, 0, 0, out), b0 / 4), b0 % 4 * 16 + b1 / 16), b1 % 16 * 4 + b2 / 64), b2 % 64)
         == State(0, 0, 0, out + [b0, b1, b2])
  {
    SplitSextet(b0, b1);
    SplitLater(b1, b2);
    var v0, v1, v2, v3 := b0 / 4, b0 % 4 * 16 + b1 / 16, b1 % 16 * 4 + b2 / 64, b2 % 64;
    assert Take(Take(State(0, 0, 0, out), v0), v1) == State(2, b1 / 16, 0, out + [b0]);
    assert Take(State(2, b1 / 16, 0, out + [b0]), v2) == State(3, b2 / 64, 0, out + [b0] + [b1]);
    assert Take(State(3, b2 / 64, 0, out + [b0] + [b1]), v3) == State(0, 0, 0, out + [b0] + [b1] + [b2]);
    assert out + [b0] + [b1] + [b2] == out + [b0, b1, b2];
  }

  lemma SplitLater(b1: Byte, b2: Byte)
    ensures var v := b1 % 16 * 4 + b2 / 64; 0 <= v < 64 && v / 4 == b1 % 16 && v % 4 == b2 / 64
    ensures b2 / 64 * 64 + b2 % 64 == b2
  {
  }

  lemma ScanTailOne(b0: Byte, out: seq<Byte>)
    ensures Scan(EncodeOne(b0), State(0, 0, 0, out)) == Success(out + [b0])
  {
    var v0, v1 := b0 / 4, b0 % 4 * 16;
    ScanPair(v0, v1, "==", State(0, 0, 0, out));
    assert [CharOf(v0), CharOf(v1), '=', '='] == [CharOf(v0), CharOf(v1)] + "==";
    var st := Take(Take(State(0, 0, 0, out), v0), v1);
    assert "=="[1..] == "=";
    assert Scan("=", st.(pads := 1)) == Success(st.out);
  }

  // A sextet made of the last two bits of one byte and the first four of the next splits again.
  lemma SplitSextet(b0: Byte, b1: Byte)
    ensures var v := b0 % 4 * 16 + b1 / 16; 0 <= v < 64 && v / 16 == b0 % 4 && v % 16 == b1 / 16
    ensures b0 / 4 * 4 + b0 % 4 == b0
    ensures b1 / 16 * 16 + b1 % 16 == b1 && b1 % 16 * 4 / 4 == b1 % 16
  {
  }

  lemma TailTwoBits(b0: Byte, b1: Byte, out: seq<Byte>)
    ensures var st := Take(Take(Take(State(0, 0, 0, out), b0 / 4), b0 % 4 * 16 + b1 / 16), b1 % 16 * 4);
            st.quad == 3 && st.pads == 0 && st.out == out + [b0, b1]
  {
    SplitSextet(b0, b1);
    var v0, v1, v2 := b0 / 4, b0 % 4 * 16 + b1 / 16, b1 % 16 * 4;
    assert Take(Take(State(0, 0, 0, out), v0), v1) == State(2, b1 / 16, 0, out + [b0]);
    assert Take(State(2, b1 / 16, 0, out + [b0]), v2).out == out + [b0] + [b1];
    assert out + [b0] + [b1] == out + [b0, b1];
  }

  lemma ScanTailTwo(b0: Byte, b1: Byte, out: seq<Byte>)
    ensures Scan(EncodeTwo(b0, b1), State(0, 0, 0, out)) == Success(out + [b0, b1])
  {
    var v0, v1, v2 := b0 / 4, b0 % 4 * 16 + b1 / 16, b1 % 16 * 4;
    var st := State(0, 0, 0, out);
    TailTwoBits(b0, b1, out);
    assert Scan("=", Take(Take(Take(st, v0), v1), v2)) == Success(out + [b0, b1]);
    hide Take, CharOf, Scan;
    ScanPair(v0, v1, [CharOf(v2)] + "=", st);
    ScanChar(v2, "=", Take(Take(st, v0), v1));
    assert [CharOf(v0), CharOf(v1), CharOf(v2), '='] == [CharOf(v0), CharOf(v1)] + ([CharOf(v2)] + "=");
  }

  lemma {:induction false} ScanReadsBack(bs: seq<Byte>, out: seq<Byte>)
    ensures Scan(Encode(bs), State(0, 0, 0, out)) == Success(out + bs)
  {
    if bs == [] {
      assert out + bs == out;
      return;
    }
    EncodeStep(bs);
    hide Encode, Scan, EncodeOne, EncodeTwo, EncodeThree;
    if |bs| == 1 {
      ScanTailOne(bs[0], out);
      assert out + bs == out + [bs[0]];
    } else if |bs| == 2 {
      ScanTailTwo(bs[0], bs[1], out);
      assert out + bs == out + [bs[0], bs[1]];
    } else {
      ScanGroup(bs[0], bs[1], bs[2], Encode(bs[3..]), out);
      ScanReadsBack(bs[3..], out + [bs[0], bs[1], bs[2]]);
      ThreeThenRest(out, bs);
    }
  }

  lemma ThreeThenRest(out: seq<Byte>, bs: seq<Byte>)
    requires |bs| >= 3
    ensures out + [bs[0], bs[1], bs[2]] + bs[3..] == out + bs
  {
  }

  // Characters of an encoding: alphabet characters, padded at the end only.
  ghost predicate DataThenPads(e: string, p: nat) {
    && |e| >= p && |e| % 4 == 0
    && (forall i :: 0 <= i < |e| - p ==> ValueOf(e[i]).Some?)
    && (forall i :: |e| - p <= i < |e| ==> e[i] == '=')
  }

  function Pads(bs: seq<Byte>): nat { (3 - |bs| % 3) % 3 }

  lemma PadsStep(bs: seq<Byte>)
    requires |bs| >= 3
    ensures Pads(bs[3..]) == Pads(bs) <= 2
  {
  }

  lemma ShortData(bs: seq<Byte>)
    requires |bs| < 3
    ensures DataThenPads(Encode(bs), Pads(bs)) && |Encode(bs)| * 3 == (|bs| + Pads(bs)) * 4
  {
    forall v: Sextet ensures ValueOf(CharOf(v)).Some? {
      CharsReadBack(v);
    }
    hide CharOf, ValueOf;
  }

  lemma GroupIsData(b0: Byte, b1: Byte, b2: Byte)
    ensures |EncodeThree(b0, b1, b2)| == 4 && forall i :: 0 <= i < 4 ==> ValueOf(EncodeThree(b0, b1, b2)[i]).Some?
  {
    forall v: Sextet ensures ValueOf(CharOf(v)).Some? {
      CharsReadBack(v);
    }
    hide CharOf, ValueOf;
  }

  lemma DataGroup(g: string, e: string, p: nat)
    requires |g| == 4 && (forall i :: 0 <= i < 4 ==> ValueOf(g[i]).Some?) && DataThenPads(e, p)
    ensures DataThenPads(g + e, p)
  {
    hide ValueOf;
    forall i | |g + e| - p <= i < |g + e| ensures (g + e)[i] == '=' {
      assert (g + e)[i] == e[i - 4];
    }
  }

  /** An encoded string is four thirds of its padded input: alphabet characters, then padding. */
  lemma {:induction false} EncodedData(bs: seq<Byte>)
    ensures DataThenPads(Encode(bs), Pads(bs)) && |Encode(bs)| * 3 == (|bs| + Pads(bs)) * 4
  {
    if |bs| < 3 {
      ShortData(bs);
    } else {
      var g := EncodeThree(bs[0], bs[1], bs[2]);
      EncodeStep(bs);
      hide EncodeThree, ValueOf, Encode, DataThenPads, Pads;
      GroupIsData(bs[0], bs[1], bs[2]);
      EncodedData(bs[3..]);
      PadsStep(bs);
      DataGroup(g, Encode(bs[3..]), Pads(bs));
    }
  }

  lemma EncodedShape(bs: seq<Byte>)
    ensures |Encode(bs)| % 4 == 0
    ensures forall i :: 0 <= i < |Encode(bs)| ==> Encode(bs)[i] as int < 128
    ensures forall i :: 0 <= i < |Encode(bs)| - 2 ==> Encode(bs)[i] != '='
  {
    EncodedData(bs);
    hide Encode;
  }

  /** Every byte string survives encoding and decoding. */
  lemma RoundTrip(bs: seq<Byte>)
    ensures Decode(Encode(bs)) == Success(bs)
  {
    EncodedShape(bs);
    ScanReadsBack(bs, []);
    assert [] + bs == bs;
  }

  // ----- missing padding -----

  function Equals(n: nat): string {
    if n == 0 then "" else Equals(n - 1) + "="
  }

  /** `token + "=" * (-len(token) % 4)` */
  function Repad(token: string): string {
    token + Equals((-|token|) % 4)
  }

  lemma {:induction false} EqualsIsAllPads(n: nat)
    ensures |Equals(n)| == n && forall i :: 0 <= i < n ==> Equals(n)[i] == '='
  {
    if n > 0 {
      EqualsIsAllPads(n - 1);
    }
  }

  /** Repadding restores what a whole number of groups has lost in trailing '='. */
  lemma RepadWhole(token: string, lost: nat)
    requires |token| % 4 == 0 && lost <= |token| && lost < 4
    requires forall i :: |token| - lost <= i < |token| ==> token[i] == '='
    ensures Repad(token[..|token| - lost]) == token
  {
    EqualsIsAllPads(lost);
    assert (-(|token| - lost)) % 4 == lost;
    assert token == token[..|token| - lost] + token[|token| - lost..];
    assert token[|token| - lost..] == Equals(lost);
  }

  /** A token that has lost any number of its trailing '=' is repaired to what was sent. */
  lemma RepadRepairs(bs: seq<Byte>, lost: nat)
    requires lost <= |Encode(bs)|
    requires forall i :: |Encode(bs)| - lost <= i < |Encode(bs)| ==> Encode(bs)[i] == '='
    ensures lost <= 2
    ensures Repad(Encode(bs)[..|Encode(bs)| - lost]) == Encode(bs)
  {
    var token := Encode(bs);
    EncodedShape(bs);
    hide Encode;
    if |token| >= 3 {
      assert token[|token| - 3] != '=';
    }
    RepadWhole(token, lost);
  }

  // ----- URL-safe tokens -----

  /** The token is repaired and decoded; only if that fails, it is read as URL-safe. */
  function DecodeToken(token: string): Result<seq<Byte>, Malformed> {
    var padded := Repad(token);
    if Decode(padded).Success? then Decode(padded) else DecodeUrlSafe(padded)
  }

  /** Whatever padding a token has lost, it decodes to what was encoded. */
  lemma TokenRoundTrip(bs: seq<Byte>, lost: nat)
    requires lost <= |Encode(bs)|
    requires forall i :: |Encode(bs)| - lost <= i < |Encode(bs)| ==> Encode(bs)[i] == '='
    ensures DecodeToken(Encode(bs)[..|Encode(bs)| - lost]) == Success(bs)
  {
    RepadRepairs(bs, lost);
    RoundTrip(bs);
    hide Encode, Decode, Repad;
  }

  /** The URL-safe spelling of an encoded string (section 5 of RFC 4648). */
  function UrlSafe(s: string): (r: string)
    ensures |r| == |s|
  {
    seq(|s|, i requires 0 <= i < |s| => if s[i] == '+' then '-' else if s[i] == '/' then '_' else s[i])
  }

  predicate IsUrlChar(c: char) { c == '-' || c == '_' }

  /** How many characters the lenient decoder will drop, and how many it will keep. */
  function Dropped(s: string): nat {
    if s == "" then 0 else (if IsUrlChar(s[0]) then 1 else 0) + Dropped(s[1..])
  }

  function Kept(s: string): nat {
    if s == "" then 0 else (if ValueOf(s[0]).Some? then 1 else 0) + Kept(s[1..])
  }

  // Alphabet characters, in either spelling.
  predicate IsData(s: string) {
    forall i :: 0 <= i < |s| ==> ValueOf(s[i]).Some? || IsUrlChar(s[i])
  }

  lemma {:induction false} KeptAndDropped(s: string)
    requires IsData(s)
    ensures Kept(s) + Dropped(s) == |s|
    ensures Dropped(s) == 0 <==> forall i :: 0 <= i < |s| ==> !IsUrlChar(s[i])
  {
    if s != "" {
      KeptAndDropped(s[1..]);
      assert IsUrlChar(s[0]) ==> ValueOf(s[0]).None?;
      if Dropped(s) == 0 {
        forall i | 0 <= i < |s| ensures !IsUrlChar(s[i]) {
          if i > 0 {
            assert s[1..][i - 1] == s[i];
          }
        }
      }
    }
  }

  /** The state after the data characters of a token. */
  function After(s: string, st: State): (r: State)
    requires ValidState(st)
    ensures ValidState(r)
  {
    if s == "" then st
    else After(s[1..], match ValueOf(s[0]) case None => st case Some(v) => Take(st, v))
  }

  lemma {:induction false} ScanData(s: string, rest: string, st: State)
    requires ValidState(st) && IsData(s)
    ensures Scan(s + rest, st) == Scan(rest, After(s, st))
  {
    hide Take;
    if s == "" {
      assert s + rest == rest;
    } else {
      assert (s + rest)[1..] == s[1..] + rest && (s + rest)[0] == s[0];
      assert s[0] != '=';
      ScanData(s[1..], rest, match ValueOf(s[0]) case None => st case Some(v) => Take(st, v));
    }
  }

  /** Whole bytes in `k` sextets. */
  function Octets(k: nat): nat { k * 3 / 4 }

  lemma TakeShape(st: State, v: Sextet)
    requires ValidState(st)
    ensures var r := Take(st, v);
      r.quad == (st.quad + 1) % 4 && r.pads == 0 && |r.out| == |st.out| + Octets(st.quad + 1) - Octets(st.quad)
  {
  }

  // Starting a new group changes no difference between counts of whole bytes.
  lemma GroupStep(q: nat, k: nat)
    requires q < 4
    ensures ((q + 1) % 4 + k) % 4 == (q + 1 + k) % 4
    ensures Octets((q + 1) % 4 + k) - Octets((q + 1) % 4) == Octets(q + 1 + k) - Octets(q + 1)
  {
  }

  lemma {:induction false} AfterShape(s: string, st: State)
    requires ValidState(st) && st.pads == 0
    ensures After(s, st).quad == (st.quad + Kept(s)) % 4 && After(s, st).pads == 0
    ensures |After(s, st).out| == |st.out| + Octets(st.quad + Kept(s)) - Octets(st.quad)
  {
    hide Take, ValueOf, Octets;
    if s != "" {
      var v := ValueOf(s[0]);
      if v.None? {
        AfterShape(s[1..], st);
      } else {
        TakeShape(st, v.value);
        AfterShape(s[1..], Take(st, v.value));
        GroupStep(st.quad, Kept(s[1..]));
      }
    }
  }

  // What the padding makes of the bits that are left.
  lemma ScanPads(st: State, p: nat)
    requires ValidState(st) && st.pads == 0 && p <= 2
    ensures Scan(Equals(p), st)
         == if st.quad == 0 || (st.quad == 2 && p == 2) || (st.quad == 3 && p >= 1) then Success(st.out) else Failure(Malformed)
  {
    assert Equals(0) == "" && Equals(1) == "=" && Equals(2) == "==";
    assert "="[1..] == "" && "=="[1..] == "=";
    var one := if st.quad >= 2 then st.(pads := 1) else st;
    assert Scan("", one) == if st.quad == 0 then Success(st.out) else Failure(Malformed);
    assert Scan("=", one) == if st.quad == 0 || st.quad >= 2 then Success(st.out) else Failure(Malformed);
  }

  /** The token in its two parts, as the decoder meets them. */
  lemma UrlSafeParts(bs: seq<Byte>) returns (data: string)
    ensures UrlSafe(Encode(bs)) == data + Equals(Pads(bs)) && IsData(data)
    ensures |data| * 3 == |bs| * 4 + Pads(bs) && |data| == |Encode(bs)| - Pads(bs)
    ensures Dropped(UrlSafe(Encode(bs))) == Dropped(data)
    ensures Dropped(data) == 0 <==> UrlSafe(Encode(bs)) == Encode(bs)
  {
    EncodedData(bs);
    hide Encode, UrlSafe, IsData, Dropped, Pads;
    data := SplitUrlSafe(Encode(bs), Pads(bs));
    UnchangedIff(Encode(bs), data, Pads(bs));
    DroppedConcat(data, Equals(Pads(bs)));
    EqualsIsAllPads(Pads(bs));
    NoneDropped(Equals(Pads(bs)));
  }

  lemma SplitUrlSafe(e: string, p: nat) returns (data: string)
    requires DataThenPads(e, p)
    ensures |data| == |e| - p && UrlSafe(e) == data + Equals(p) && IsData(data)
  {
    var u := UrlSafe(e);
    data := u[..|e| - p];
    EqualsIsAllPads(p);
    assert u == data + u[|e| - p..];
    assert u[|e| - p..] == Equals(p);
    forall i | 0 <= i < |data| ensures ValueOf(data[i]).Some? || IsUrlChar(data[i]) {
      assert data[i] == u[i];
    }
  }

  lemma UnchangedIff(e: string, data: string, p: nat)
    requires DataThenPads(e, p) && |data| == |e| - p && UrlSafe(e) == data + Equals(p) && IsData(data)
    ensures Dropped(data) == 0 <==> UrlSafe(e) == e
  {
    var u := UrlSafe(e);
    KeptAndDropped(data);
    hide Dropped, Equals;
    if Dropped(data) == 0 {
      forall i | 0 <= i < |e| ensures u[i] == e[i] {
        assert i < |data| ==> data[i] == u[i];
      }
    } else {
      var i :| 0 <= i < |data| && IsUrlChar(data[i]);
      assert data[i] == u[i] && ValueOf(e[i]).Some?;
      assert u[i] != e[i];
    }
  }

  lemma StandardUndoesUrlSafe(bs: seq<Byte>)
    ensures Standard(UrlSafe(Encode(bs))) == Encode(bs)
  {
    EncodedData(bs);
    hide Encode;
  }

  /** When a URL-safe token of `n` data characters, `d` of them '-' or '_', and `p` pads comes
      through: when there is nothing to drop, or when dropping leaves an incomplete group, so
      that the lenient decoder fails and the URL-safe one is asked. */
  predicate ComesThrough(n: int, d: int, p: int) {
    d == 0 || (n - d) % 4 == 1 || ((n - d) % 4 == 2 && p < 2) || ((n - d) % 4 == 3 && p == 0)
  }

  lemma DataIsAscii(data: string)
    requires IsData(data)
    ensures forall i :: 0 <= i < |data| ==> data[i] as int < 128
  {
  }

  // The lenient decoder on `data` and `p` pads: it keeps `k` sextets, and fails on an odd group.
  lemma LenientOnParts(data: string, p: nat)
    requires IsData(data) && p <= 2
    ensures var r, k := Decode(data + Equals(p)), Kept(data);
      && (r.Success? <==> k % 4 == 0 || (k % 4 == 2 && p == 2) || (k % 4 == 3 && p >= 1))
      && (r.Success? ==> |r.value| == Octets(k))
  {
    var st := State(0, 0, 0, []);
    DataIsAscii(data);
    EqualsIsAllPads(p);
    hide Scan, After, ValueOf, Kept, IsData, Octets;
    ScanData(data, Equals(p), st);
    AfterShape(data, st);
    ScanPads(After(data, st), p);
  }

  lemma FewerOctets(n: nat, k: nat, b: nat, p: nat)
    requires n * 3 == b * 4 + p && p <= 2 && k < n
    ensures Octets(k) < b
  {
  }

  /** What the lenient decoder makes of a URL-safe token. */
  lemma LenientOnUrlSafe(bs: seq<Byte>)
    ensures var p, n, d := Pads(bs), |Encode(bs)| - Pads(bs), Dropped(UrlSafe(Encode(bs)));
      && n >= 0
      && (d == 0 ==> UrlSafe(Encode(bs)) == Encode(bs))
      && (d > 0 && ComesThrough(n, d, p) ==> Decode(UrlSafe(Encode(bs))).Failure?)
      && (!ComesThrough(n, d, p) ==>
            Decode(UrlSafe(Encode(bs))).Success? && |Decode(UrlSafe(Encode(bs))).value| < |bs|)
  {
    var data := UrlSafeParts(bs);
    var p := Pads(bs);
    hide Encode, UrlSafe, Decode, IsData, Octets, Kept, Dropped;
    LenientOnParts(data, p);
    KeptAndDropped(data);
    if Kept(data) < |data| {
      FewerOctets(|data|, Kept(data), |bs|, p);
    }
  }

  lemma {:induction false} DroppedConcat(s: string, t: string)
    ensures Dropped(s + t) == Dropped(s) + Dropped(t)
  {
    if s == "" {
      assert s + t == t;
    } else {
      assert (s + t)[1..] == s[1..] + t;
      DroppedConcat(s[1..], t);
    }
  }

  lemma {:induction false} NoneDropped(s: string)
    requires forall i :: 0 <= i < |s| ==> s[i] == '='
    ensures Dropped(s) == 0
  {
    if s != "" {
      NoneDropped(s[1..]);
    }
  }

  /** The URL-safe spelling of an encoded string, with any of its padding lost, decodes to what
      was encoded exactly when it comes through; otherwise it decodes to something shorter. */
  lemma UrlSafeRoundTripIff(bs: seq<Byte>, lost: nat)
    requires lost <= Pads(bs) <= |Encode(bs)|
    ensures var token := UrlSafe(Encode(bs))[..|Encode(bs)| - lost];
      var through := ComesThrough(|Encode(bs)| - Pads(bs), Dropped(UrlSafe(Encode(bs))), Pads(bs));
      && (DecodeToken(token) == Success(bs) <==> through)
      && (!through ==> DecodeToken(token).Success? && |DecodeToken(token).value| < |bs|)
  {
    var u := UrlSafe(Encode(bs));
    EncodedData(bs);
    assert Repad(u[..|u| - lost]) == u by {
      assert forall i :: |u| - lost <= i < |u| ==> u[i] == '=';
      hide Encode, UrlSafe;
      RepadWhole(u, lost);
    }
    StandardUndoesUrlSafe(bs);
    RoundTrip(bs);
    LenientOnUrlSafe(bs);
    hide Encode, UrlSafe, Decode, Repad;
  }

  /** A token of one full group comes through unless all four of its characters are dropped. */
  lemma OneGroup(b0: Byte, b1: Byte, b2: Byte, token: string)
    requires UrlSafe(EncodeThree(b0, b1, b2)) == token && Dropped(token) < 4
    ensures DecodeToken(token) == Success([b0, b1, b2])
  {
    var bs := [b0, b1, b2];
    EncodeGroup(b0, b1, b2);
    assert Pads(bs) == 0;
    hide Encode, EncodeThree, DecodeToken, UrlSafe, Dropped;
    assert token[..|token| - 0] == token;
    UrlSafeRoundTripIff(bs, 0);
  }

  /** A token that fails leniently and is then read as URL-safe: three bytes whose encoding has one '+'. */
  lemma UrlSafeTokenComesThrough()
    ensures EncodeThree(105, 191, 157) == "ab+d" && DecodeToken("ab-d") == Success([105, 191, 157])
  {
    assert UrlSafe("ab+d") == "ab-d";
    DroppedInFour("ab-d");
    hide DecodeToken, UrlSafe, Dropped;
    OneGroup(105, 191, 157, "ab-d");
  }

  lemma EncodeGroup(b0: Byte, b1: Byte, b2: Byte)
    ensures Encode([b0, b1, b2]) == EncodeThree(b0, b1, b2)
  {
    assert [b0, b1, b2][3..] == [] && Encode([]) == "";
    EncodeStep([b0, b1, b2]);
    hide EncodeThree;
  }

  lemma DroppedInFour(s: string)
    requires |s| == 4
    ensures Dropped(s) == (if IsUrlChar(s[0]) then 1 else 0) + (if IsUrlChar(s[1]) then 1 else 0)
                          + (if IsUrlChar(s[2]) then 1 else 0) + (if IsUrlChar(s[3]) then 1 else 0)
  {
    assert s[1..][1..] == s[2..] && s[2..][1..] == s[3..] && s[3..][1..] == "";
    assert Dropped(s[2..]) == (if IsUrlChar(s[2]) then 1 else 0) + Dropped(s[3..]);
    assert Dropped(s[3..]) == (if IsUrlChar(s[3]) then 1 else 0) + Dropped("");
  }

  /** The extreme case: of a token that consists of '-' and '_' nothing is left. */
  lemma UrlSafeCharactersAreDropped(s: string)
    requires forall i :: 0 <= i < |s| ==> IsUrlChar(s[i])
    ensures Decode(s) == Success([])
  {
    ScanData(s, "", State(0, 0, 0, []));
    AfterNothing(s, State(0, 0, 0, []));
    assert s + "" == s;
  }

  /** A token that does not come through: the encoding is "++++", and every character is dropped. */
  lemma UrlSafeTokenIsLost()
    ensures Encode([251, 239, 190]) == "++++" && DecodeToken("----") == Success([])
  {
    EncodeGroup(251, 239, 190);
    assert EncodeThree(251, 239, 190) == "++++";
    assert Repad("----") == "----";
    UrlSafeCharactersAreDropped("----");
  }

  lemma {:induction false} AfterNothing(s: string, st: State)
    requires ValidState(st) && forall i :: 0 <= i < |s| ==> IsUrlChar(s[i])
    ensures After(s, st) == st
  {
    if s != "" {
      AfterNothing(s[1..], st);
      assert ValueOf(s[0]).None?;
    }
  }
}
