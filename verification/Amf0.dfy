/** The AMF 0 codec: what the decoder makes of any bytes, and which trees survive encoding. */
module Amf0 {
  import opened Bytes

  /** A decoded tree.  A number is kept as its eight bytes; a text as what a C string shows of it. */
  datatype Value =
    | Number(bits: seq<byte>)
    | Boolean(on: bool)
    | Text(chars: seq<byte>)
    | Object(pairs: seq<Pair>)
    | EcmaArray(pairs: seq<Pair>)
    | Null
    | Undefined

  datatype Pair = Pair(key: seq<byte>, val: Value)

  datatype Outcome = Done(v: Value, off: nat) | Invalid | Unsupported

  datatype Pairs = Pairs(pairs: seq<Pair>, off: nat) | BadPairs

  const KEY_MAX: nat := 63

  function UpToNul(s: seq<byte>): (r: seq<byte>)
    ensures |r| <= |s| && r <= s && 0 !in r && (0 !in s ==> r == s)
  {
    if s == [] || s[0] == 0 then [] else [s[0]] + UpToNul(s[1..])
  }

  function Be16(a: byte, b: byte): nat {
    a * 256 + b
  }

  function Key(raw: seq<byte>): (k: seq<byte>)
    ensures |k| <= KEY_MAX
  {
    UpToNul(if |raw| < KEY_MAX then raw else raw[..KEY_MAX])
  }

  // ---- decoding

  /** A text whose length field has `width` bytes and says `n`. */
  function DecodeText(d: seq<byte>, off: nat, n: nat): (r: Outcome)
    requires off <= |d|
    ensures r.Done? ==> r.off == off + n <= |d|
  {
    if off + n > |d| then Invalid else Done(Text(UpToNul(d[off..off + n])), off + n)
  }

  function Decode(d: seq<byte>, off: nat): (r: Outcome)
    requires off <= |d|
    ensures r.Done? ==> off < r.off <= |d|
    decreases |d| - off, 0
  {
    if off == |d| then Invalid
    else
      var t, at := d[off], off + 1;
      if t == 0 then if at + 8 > |d| then Invalid else Done(Number(d[at..at + 8]), at + 8)
      else if t == 1 then if at + 1 > |d| then Invalid else Done(Boolean(d[at] != 0), at)
      else if t == 2 then if at + 2 > |d| then Invalid else DecodeText(d, at + 2, Be16(d[at], d[at + 1]))
      else if t == 5 then Done(Null, at)
      else if t == 6 then Done(Undefined, at)
      else if t == 12 then
        if at + 4 > |d| then Invalid else DecodeText(d, at + 4, Be32(d[at], d[at + 1], d[at + 2], d[at + 3]))
      else if t == 10 then
        if at + 4 > |d| then Invalid
        else
          var end := Skip(d, at + 4, Be32(d[at], d[at + 1], d[at + 2], d[at + 3]));
          if end == 0 then Invalid else Done(Null, end)
      else if t == 3 || t == 8 then
        if t == 8 && at + 4 > |d| then Invalid
        else
          var ps := DecodePairs(d, if t == 8 then at + 4 else at, []);
          if ps.BadPairs? then Invalid
          else Done(if t == 8 then EcmaArray(ps.pairs) else Object(ps.pairs), ps.off)
      else Unsupported
  }

  /** The offset behind `count` values, which are dropped; 0 if one of them is bad. */
  function Skip(d: seq<byte>, off: nat, count: nat): (end: nat)
    requires off <= |d|
    ensures end <= |d| && (end != 0 ==> end >= off)
    decreases |d| - off, 1
  {
    if count == 0 then off
    else
      var r := Decode(d, off);
      if r.Done? then Skip(d, r.off, count - 1) else 0
  }

  /** The pairs from `off` to the end mark, behind those of `acc`. */
  function DecodePairs(d: seq<byte>, off: nat, acc: seq<Pair>): (r: Pairs)
    requires off <= |d|
    ensures r.Pairs? ==> off < r.off <= |d| && acc <= r.pairs
    decreases |d| - off, 1
  {
    if off + 3 > |d| then BadPairs else DecodeKey(d, off + 2, Be16(d[off], d[off + 1]), acc)
  }

  /** The same from behind a length field that says `n`. */
  function DecodeKey(d: seq<byte>, from: nat, n: nat, acc: seq<Pair>): (r: Pairs)
    requires from < |d|
    ensures r.Pairs? ==> from < r.off <= |d| && acc <= r.pairs
    decreases |d| - from, 3
  {
    if n == 0 then if d[from] != 9 then BadPairs else Pairs(acc, from + 1)
    else if from + n > |d| then BadPairs
    else DecodePair(d, from, from + n, acc)
  }

  /** The same from behind a key, which stands from `from` to `at`. */
  function DecodePair(d: seq<byte>, from: nat, at: nat, acc: seq<Pair>): (r: Pairs)
    requires from < at <= |d|
    ensures r.Pairs? ==> at < r.off <= |d| && acc <= r.pairs
    decreases |d| - at, 2
  {
    var r := Decode(d, at);
    if r.Done? then DecodePairs(d, r.off, acc + [Pair(Key(d[from..at]), r.v)]) else BadPairs
  }

  // ---- encoding

  function Be16Bytes(n: nat): (s: seq<byte>)
    ensures |s| == 2
  {
    [n / 256 % 256, n % 256]
  }

  /** The trees there are encoders for. */
  predicate Plain(v: Value) {
    match v
    case Number(bits) => |bits| == 8
    case Text(chars) => 0 !in chars
    case Object(pairs) => forall i :: 0 <= i < |pairs| ==> 0 !in pairs[i].key && Plain(pairs[i].val)
    case Null => true
    case _ => false
  }

  /** All lengths in the tree are those that the length fields and the decoder's keys can hold. */
  predicate Fits(v: Value)
    requires Plain(v)
    decreases v, if v.Object? then |v.pairs| + 1 else 0
  {
    match v
    case Text(chars) => |chars| < 0x1_0000
    case Object(pairs) => FitsFrom(v, 0)
    case _ => true
  }

  predicate FitsFrom(v: Value, i: nat)
    requires Plain(v) && v.Object? && i <= |v.pairs|
    decreases v, |v.pairs| - i
  {
    i == |v.pairs| || (0 < |v.pairs[i].key| <= KEY_MAX && Fits(v.pairs[i].val) && FitsFrom(v, i + 1))
  }

  function Encode(v: Value): (s: seq<byte>)
    requires Plain(v)
    ensures |s| > 0
    decreases v, if v.Object? then |v.pairs| + 1 else 0
  {
    match v
    case Number(bits) => [0] + bits
    case Text(chars) => [2] + Be16Bytes(|chars|) + chars
    case Object(pairs) => [3] + EncodePairs(v, 0)
    case Null => [5]
  }

  /** The pairs of object `v` from number `i` on, and the end mark. */
  function EncodePairs(v: Value, i: nat): (s: seq<byte>)
    requires Plain(v) && v.Object? && i <= |v.pairs|
    ensures |s| >= 3
    decreases v, |v.pairs| - i
  {
    if i == |v.pairs| then [0, 0, 9]
    else Be16Bytes(|v.pairs[i].key|) + v.pairs[i].key + Encode(v.pairs[i].val) + EncodePairs(v, i + 1)
  }

  /** `s` stands in `d` at `off`. */
  predicate At(d: seq<byte>, off: nat, s: seq<byte>) {
    off + |s| <= |d| && d[off..off + |s|] == s
  }

  lemma AtSplits(d: seq<byte>, off: nat, a: seq<byte>, b: seq<byte>)
    requires At(d, off, a + b)
    ensures At(d, off, a) && At(d, off + |a|, b)
  {
    var w := d[off..off + |a + b|];
    assert d[off..off + |a|] == w[..|a|] == a;
    assert d[off + |a|..off + |a| + |b|] == w[|a|..] == b;
  }

  lemma Be16At(d: seq<byte>, off: nat, n: nat)
    requires At(d, off, Be16Bytes(n))
    ensures var m := Be16(d[off], d[off + 1]); m < 0x1_0000 && m <= n && (n < 0x1_0000 ==> m == n)
  {
    var w := d[off..off + 2];
    assert w[0] == d[off] && w[1] == d[off + 1];
  }

  lemma TextParts(chars: seq<byte>, d: seq<byte>, off: nat) returns (from: nat, n: nat)
    requires 0 !in chars && off <= |d| && At(d, off, Encode(Text(chars)))
    ensures n < 0x1_0000 && n <= |chars| && (|chars| < 0x1_0000 ==> n == |chars|)
    ensures from == off + 3 <= |d| && At(d, from, chars)
    ensures Decode(d, off) == DecodeText(d, from, n)
  {
    from := off + 3;
    var size := Be16Bytes(|chars|);
    assert [2] + size + chars == [2] + (size + chars);
    AtSplits(d, off, [2], size + chars);
    AtSplits(d, off + 1, size, chars);
    Be16At(d, off + 1, |chars|);
    n := Be16(d[off + 1], d[off + 2]);
    FirstByte(d, off, [2]);
  }

  lemma TextSurvives(chars: seq<byte>, d: seq<byte>, off: nat)
    requires 0 !in chars && off <= |d| && At(d, off, Encode(Text(chars)))
    ensures |chars| < 0x1_0000 ==> Decode(d, off) == Done(Text(chars), off + |Encode(Text(chars))|)
    ensures |chars| >= 0x1_0000 ==> Decode(d, off).Done? && Decode(d, off).v != Text(chars)
  {
    hide Decode;
    var from, n := TextParts(chars, d, off);
    assert d[from..from + n] == d[from..from + |chars|][..n];
  }

  /** What a C string shows of some bytes: those in front of the first zero. */
  predicate Shown(raw: seq<byte>, c: seq<byte>) {
    |c| <= |raw| && c == raw[..|c|] && 0 !in c && (|c| < |raw| ==> raw[|c|] == 0)
  }

  lemma {:induction false} UpToNulShows(s: seq<byte>)
    ensures Shown(s, UpToNul(s))
  {
    if s != [] && s[0] != 0 {
      UpToNulShows(s[1..]);
      assert s == [s[0]] + s[1..];
    }
  }

  /** A key is what a C string shows of its first 63 bytes. */
  lemma KeyShows(raw: seq<byte>)
    ensures Shown(if |raw| < 63 then raw else raw[..63], Key(raw))
  {
    UpToNulShows(if |raw| < 63 then raw else raw[..63]);
  }

  /** The number that the bytes are, the most significant first. */
  function BigEndian(s: seq<byte>): nat {
    if s == [] then 0 else BigEndian(s[..|s| - 1]) * 256 + s[|s| - 1]
  }

  lemma Be16Is(a: byte, b: byte)
    ensures BigEndian([a, b]) == Be16(a, b)
  {
    assert [a, b][..1] == [a] && [a][..0] == [];
    assert BigEndian([a]) == Bytes.Value(a);
  }

  lemma Be32Is(a: byte, b: byte, c: byte, e: byte)
    ensures BigEndian([a, b, c, e]) == Be32(a, b, c, e)
  {
    Be16Is(a, b);
    assert [a, b, c, e][..3] == [a, b, c] && [a, b, c][..2] == [a, b];
  }

  /** A text is a mark, its length and its bytes: two bytes of length behind mark 2, four behind mark 12, the most
      significant first.  It is decoded exactly if all of it is there, to what a C string shows of it. */
  lemma TextIff(d: seq<byte>, off: nat, width: nat)
    requires off < |d| && ((width == 2 && d[off] == 2) || (width == 4 && d[off] == 12))
    ensures var r, from := Decode(d, off), off + 1 + width;
            if from > |d| then r == Invalid
            else
              var n := BigEndian(d[off + 1..from]);
              if from + n > |d| then r == Invalid
              else r.Done? && r.off == from + n && r.v.Text? && Shown(d[from..from + n], r.v.chars)
  {
    hide UpToNul, Shown, BigEndian, Decode, Be16, Be32;
    TextUnfolds(d, off, width);
    if off + 1 + width <= |d| {
      LengthIs(d, off + 1, width);
      var from, n := off + 1 + width, BigEndian(d[off + 1..off + 1 + width]);
      if from + n <= |d| { UpToNulShows(d[from..from + n]); }
    }
  }

  lemma TextUnfolds(d: seq<byte>, off: nat, width: nat)
    requires off < |d| && ((width == 2 && d[off] == 2) || (width == 4 && d[off] == 12))
    ensures Decode(d, off) == if off + 1 + width > |d| then Invalid
                              else DecodeText(d, off + 1 + width,
                                              if width == 2 then Be16(d[off + 1], d[off + 2])
                                              else Be32(d[off + 1], d[off + 2], d[off + 3], d[off + 4]))
  {
    hide Be16, Be32, DecodeText, DecodePairs, Skip;
  }

  lemma LengthIs(d: seq<byte>, at: nat, width: nat)
    requires at + width <= |d| && (width == 2 || width == 4)
    ensures width == 2 ==> BigEndian(d[at..at + width]) == Be16(d[at], d[at + 1])
    ensures width == 4 ==> BigEndian(d[at..at + width]) == Be32(d[at], d[at + 1], d[at + 2], d[at + 3])
  {
    hide BigEndian, Be16, Be32;
    if width == 2 {
      Be16Is(d[at], d[at + 1]);
      assert d[at..at + 2] == [d[at], d[at + 1]];
    } else {
      Be32Is(d[at], d[at + 1], d[at + 2], d[at + 3]);
      assert d[at..at + 4] == [d[at], d[at + 1], d[at + 2], d[at + 3]];
    }
  }

  /** The values without a length: a number is the eight bytes behind its mark; the byte behind the mark of a boolean
      is looked at, but not stepped over. */
  lemma ScalarIs(d: seq<byte>, off: nat)
    requires off < |d|
    ensures d[off] == 0 ==>
              Decode(d, off) == if off + 9 > |d| then Invalid else Done(Number(d[off + 1..off + 9]), off + 9)
    ensures d[off] == 1 ==> Decode(d, off) == if off + 2 > |d| then Invalid else Done(Boolean(d[off + 1] != 0), off + 1)
    ensures d[off] == 5 ==> Decode(d, off) == Done(Null, off + 1)
    ensures d[off] == 6 ==> Decode(d, off) == Done(Undefined, off + 1)
    ensures d[off] == 4 || d[off] == 7 || d[off] == 9 || d[off] == 11 || d[off] > 12 ==> Decode(d, off) == Unsupported
  {
  }

  lemma LongKey(d: seq<byte>, off: nat, acc: seq<Pair>)
    requires off + 3 <= |d| && 0 < Be16(d[off], d[off + 1]) && off + 2 + Be16(d[off], d[off + 1]) > |d|
    ensures DecodePairs(d, off, acc) == BadPairs
  {
    hide Be16, DecodePair;
  }

  /** So the pairs behind a boolean are read from its own byte on.  Behind `false` and less than 256 bytes of the next
      key the object is invalid, unless that key has nine bytes: then its length is taken for the end mark.  Behind
      `true`, that byte makes the next key 256 bytes longer. */
  lemma BooleanInObject(d: seq<byte>, from: nat, at: nat, acc: seq<Pair>)
    requires from < at && at + 4 <= |d| && d[at] == 1 && d[at + 2] == 0
    ensures d[at + 1] == 0 ==>
              DecodePair(d, from, at, acc) ==
                if d[at + 3] == 9 then Pairs(acc + [Pair(Key(d[from..at]), Boolean(false))], at + 4) else BadPairs
    ensures d[at + 1] == 1 && |d| < at + 3 + 256 ==> DecodePair(d, from, at, acc) == BadPairs
  {
    hide Decode, Key, DecodePairs, DecodePair;
    var more := acc + [Pair(Key(d[from..at]), Boolean(d[at + 1] != 0))];
    BehindBoolean(d, from, at, acc);
    if d[at + 1] == 0 { NoRound(d, at + 1, more); } else if d[at + 1] == 1 && |d| < at + 259 { LongKey(d, at + 1, more); }
  }

  lemma BehindBoolean(d: seq<byte>, from: nat, at: nat, acc: seq<Pair>)
    requires from < at && at + 2 <= |d| && d[at] == 1
    ensures DecodePair(d, from, at, acc) == DecodePairs(d, at + 1, acc + [Pair(Key(d[from..at]), Boolean(d[at + 1] != 0))])
  {
    hide Decode, Key, DecodePairs;
    ScalarIs(d, at);
  }

  /** An object whose last value is a boolean, in front of its end mark, and nothing behind: it is never decoded. */
  lemma BooleanAtTheEnd(d: seq<byte>, from: nat, on: byte, acc: seq<Pair>)
    requires on <= 1 && from + 5 < |d| && d[|d| - 5..] == [1, on, 0, 0, 9]
    ensures DecodePair(d, from, |d| - 5, acc) == BadPairs
  {
    var at := |d| - 5;
    var tail := d[at..];
    assert tail[0] == d[at] && tail[1] == d[at + 1] && tail[2] == d[at + 2] && tail[3] == d[at + 3];
    BooleanInObject(d, from, at, acc);
  }

  lemma LeafSurvives(v: Value, d: seq<byte>, off: nat)
    requires Plain(v) && (v.Number? || v.Null?) && off <= |d| && At(d, off, Encode(v))
    ensures Decode(d, off) == Done(v, off + |Encode(v)|)
  {
    var w := Encode(v);
    assert d[off] == d[off..off + |w|][0];
    if v.Number? {
      assert d[off + 1..off + 9] == d[off..off + |w|][1..] == v.bits;
    }
  }

  /** The first bytes of the encodings: none of them is the end mark. */
  lemma NeverEndMark(v: Value)
    requires Plain(v)
    ensures Encode(v)[0] != 9
  {
  }

  /** A tree is decoded from its encoding, wherever that stands and whatever follows, exactly if all its
      lengths fit; then the decoder stops exactly behind the encoding. */
  lemma {:induction false} RoundTripIff(v: Value, d: seq<byte>, off: nat)
    requires Plain(v) && off <= |d| && At(d, off, Encode(v))
    ensures Fits(v) <==> Decode(d, off).Done? && Decode(d, off).v == v
    ensures Fits(v) ==> Decode(d, off) == Done(v, off + |Encode(v)|)
    decreases v, if v.Object? then |v.pairs| + 1 else 0
  {
    match v
    case Number(_) => LeafSurvives(v, d, off);
    case Null => LeafSurvives(v, d, off);
    case Text(chars) => TextSurvives(chars, d, off);
    case Object(pairs) =>
      AtSplits(d, off, [3], EncodePairs(v, 0));
      assert d[off] == d[off..off + 1][0];
      PairsSurvive(v, 0, d, off + 1);
      assert pairs[..0] == [] && pairs[..|pairs|] == pairs;
  }

  lemma {:induction false} PairsSurvive(v: Value, i: nat, d: seq<byte>, off: nat)
    requires Plain(v) && v.Object? && i <= |v.pairs| && off <= |d| && At(d, off, EncodePairs(v, i))
    ensures var r := DecodePairs(d, off, v.pairs[..i]);
            && (FitsFrom(v, i) <==> r.Pairs? && r.pairs == v.pairs)
            && (FitsFrom(v, i) ==> r.off == off + |EncodePairs(v, i)|)
    decreases v, |v.pairs| - i
  {
    if i == |v.pairs| {
      var w := d[off..off + 3];
      assert w[0] == d[off] && w[1] == d[off + 1] && w[2] == d[off + 2];
      assert v.pairs[..i] == v.pairs;
    } else {
      PairSurvives(v, i, d, off);
    }
  }

  /** What the decoder sees of pair `i`. */
  lemma PairParts(v: Value, i: nat, d: seq<byte>, off: nat) returns (from: nat, n: nat, at: nat, next: nat)
    requires Plain(v) && v.Object? && i < |v.pairs| && At(d, off, EncodePairs(v, i))
    ensures var k, e := v.pairs[i].key, Encode(v.pairs[i].val);
            && off + 3 <= |d| && from == off + 2 && n == Be16(d[off], d[off + 1]) && n <= |k| && (|k| <= KEY_MAX ==> n == |k|)
            && at == from + |k| <= |d| && d[from..at] == k && At(d, at, e)
            && next == at + |e| <= |d| && At(d, next, EncodePairs(v, i + 1))
            && off + |EncodePairs(v, i)| == next + |EncodePairs(v, i + 1)|
  {
    hide Be16, Be16Bytes, Encode;
    var k, e, more := v.pairs[i].key, Encode(v.pairs[i].val), EncodePairs(v, i + 1);
    var size := Be16Bytes(|k|);
    from := off + 2;
    at := from + |k|;
    next := at + |e|;
    assert EncodePairs(v, i) == size + (k + (e + more));
    AtSplits(d, off, size, k + (e + more));
    AtSplits(d, from, k, e + more);
    AtSplits(d, at, e, more);
    Be16At(d, off, |k|);
    n := Be16(d[off], d[off + 1]);
  }

  /** A pair that is decoded into another one is never made good. */
  lemma WrongPair(v: Value, i: nat, d: seq<byte>, off: nat, p: Pair)
    requires v.Object? && i < |v.pairs| && off <= |d| && p != v.pairs[i]
    ensures var r := DecodePairs(d, off, v.pairs[..i] + [p]); !(r.Pairs? && r.pairs == v.pairs)
  {
    var acc, r := v.pairs[..i] + [p], DecodePairs(d, off, v.pairs[..i] + [p]);
    if r.Pairs? { assert r.pairs[i] == acc[i] == p; }
  }

  /** One round of the decoder's loop. */
  lemma OneRound(d: seq<byte>, off: nat, from: nat, n: nat, at: nat, acc: seq<Pair>)
    requires off + 3 <= |d| && from == off + 2 && n == Be16(d[off], d[off + 1]) && n > 0 && at == from + n <= |d|
    ensures DecodePairs(d, off, acc) == DecodePair(d, from, at, acc)
  {
    hide Decode, Be16, DecodePair;
    assert DecodePairs(d, off, acc) == DecodeKey(d, from, n, acc);
  }

  lemma NoRound(d: seq<byte>, off: nat, acc: seq<Pair>)
    requires off + 3 <= |d| && Be16(d[off], d[off + 1]) == 0
    ensures var r := DecodePairs(d, off, acc);
            if d[off + 2] == 9 then r == Pairs(acc, off + 3) else r == BadPairs
  {
  }

  lemma BadKey(v: Value, i: nat, d: seq<byte>, off: nat, from: nat, n: nat, at: nat)
    requires Plain(v) && v.Object? && i < |v.pairs| && off + 3 <= |d| && !(0 < |v.pairs[i].key| <= KEY_MAX)
    requires from == off + 2 && n == Be16(d[off], d[off + 1]) && n <= |v.pairs[i].key|
    requires at == from + |v.pairs[i].key| && At(d, at, Encode(v.pairs[i].val))
    ensures var r := DecodePairs(d, off, v.pairs[..i]); !(r.Pairs? && r.pairs == v.pairs)
  {
    hide Decode, DecodePairs, DecodePair;
    if n == 0 {
      NeverEndMark(v.pairs[i].val);
      FirstByte(d, at, Encode(v.pairs[i].val));
      NoRound(d, off, v.pairs[..i]);
      assert |v.pairs[..i]| != |v.pairs|;
    } else {
      OneRound(d, off, from, n, from + n, v.pairs[..i]);
      WrongKey(v, i, d, from, from + n);
    }
  }

  lemma WrongKey(v: Value, i: nat, d: seq<byte>, from: nat, at: nat)
    requires v.Object? && i < |v.pairs| && from < at <= |d| && |v.pairs[i].key| > KEY_MAX
    ensures var r := DecodePair(d, from, at, v.pairs[..i]); !(r.Pairs? && r.pairs == v.pairs)
  {
    var e := Decode(d, at);
    if e.Done? { WrongPair(v, i, d, e.off, Pair(Key(d[from..at]), e.v)); }
  }

  /** Pair `i` is decoded as it is. */
  lemma RightPair(v: Value, i: nat, d: seq<byte>, from: nat, at: nat)
    requires v.Object? && i < |v.pairs| && from < at <= |d| && Key(d[from..at]) == v.pairs[i].key
    requires Decode(d, at).Done? && Decode(d, at).v == v.pairs[i].val
    ensures DecodePair(d, from, at, v.pairs[..i]) == DecodePairs(d, Decode(d, at).off, v.pairs[..i + 1])
  {
    hide Decode, DecodePairs, Key;
    assert Pair(Key(d[from..at]), Decode(d, at).v) == v.pairs[i];
    assert v.pairs[..i] + [v.pairs[i]] == v.pairs[..i + 1];
  }

  /** Its value is not. */
  lemma WrongValue(v: Value, i: nat, d: seq<byte>, from: nat, at: nat)
    requires v.Object? && i < |v.pairs| && from < at <= |d|
    requires !(Decode(d, at).Done? && Decode(d, at).v == v.pairs[i].val)
    ensures var r := DecodePair(d, from, at, v.pairs[..i]); !(r.Pairs? && r.pairs == v.pairs)
  {
    var e := Decode(d, at);
    if e.Done? { WrongPair(v, i, d, e.off, Pair(Key(d[from..at]), e.v)); }
  }

  lemma KeyKept(k: seq<byte>)
    requires |k| <= KEY_MAX && 0 !in k
    ensures Key(k) == k
  {
    assert k[..|k|] == k;
  }

  lemma {:induction false} PairSurvives(v: Value, i: nat, d: seq<byte>, off: nat)
    requires Plain(v) && v.Object? && i < |v.pairs| && off <= |d| && At(d, off, EncodePairs(v, i))
    ensures var r := DecodePairs(d, off, v.pairs[..i]);
            && (FitsFrom(v, i) <==> r.Pairs? && r.pairs == v.pairs)
            && (FitsFrom(v, i) ==> r.off == off + |EncodePairs(v, i)|)
    decreases v, |v.pairs| - i, 0
  {
    hide Decode, DecodePairs, DecodePair;
    var k, val := v.pairs[i].key, v.pairs[i].val;
    var from, n, at, next := PairParts(v, i, d, off);
    if 0 < |k| <= KEY_MAX {
      OneRound(d, off, from, n, at, v.pairs[..i]);
      RoundTripIff(val, d, at);
      if Fits(val) {
        KeyKept(k);
        RightPair(v, i, d, from, at);
        PairsSurvive(v, i + 1, d, next);
      } else {
        WrongValue(v, i, d, from, at);
      }
    } else {
      BadKey(v, i, d, off, from, n, at);
    }
  }

  lemma FirstByte(d: seq<byte>, off: nat, s: seq<byte>)
    requires At(d, off, s) && s != []
    ensures d[off] == s[0]
  {
    assert d[off..off + |s|][0] == d[off];
  }

  /** The other notation for objects, with a count in front that plays no role. */
  lemma EcmaArrayIff(v: Value, count: seq<byte>, d: seq<byte>, off: nat)
    requires Plain(v) && v.Object? && |count| == 4 && off <= |d| && At(d, off, [8] + count + EncodePairs(v, 0))
    ensures Fits(v) <==> Decode(d, off) == Done(EcmaArray(v.pairs), off + 5 + |EncodePairs(v, 0)|)
  {
    var ps := EncodePairs(v, 0);
    assert [8] + count + ps == [8] + (count + ps);
    AtSplits(d, off, [8], count + ps);
    AtSplits(d, off + 1, count, ps);
    FirstByte(d, off, [8]);
    PairsSurvive(v, 0, d, off + 5);
    assert v.pairs[..0] == [];
  }

  // ---- looking up a key

  function Find(pairs: seq<Pair>, key: seq<byte>): (i: nat)
    ensures i <= |pairs| && (i < |pairs| ==> pairs[i].key == key) && forall j :: 0 <= j < i ==> pairs[j].key != key
  {
    if pairs == [] || pairs[0].key == key then 0 else 1 + Find(pairs[1..], key)
  }

  predicate DistinctKeys(pairs: seq<Pair>) {
    forall i, j :: 0 <= i < j < |pairs| ==> pairs[i].key != pairs[j].key
  }

  /** With distinct keys a look-up finds the one pair with that key. */
  lemma FindIff(pairs: seq<Pair>, key: seq<byte>, i: nat)
    requires DistinctKeys(pairs) && i < |pairs|
    ensures Find(pairs, key) == i <==> pairs[i].key == key
  {
  }

  method ObjectGet(v: Value, key: seq<byte>) returns (found: bool, val: Value)
    requires v.Object? || v.EcmaArray?
    ensures found <==> exists p :: p in v.pairs && p.key == key
    ensures found ==> Find(v.pairs, key) < |v.pairs| && val == v.pairs[Find(v.pairs, key)].val
  {
    var i := 0;
    while i < |v.pairs|
      invariant i <= |v.pairs| && forall j :: 0 <= j < i ==> v.pairs[j].key != key
    {
      if v.pairs[i].key == key {
        assert v.pairs[i] in v.pairs;
        return true, v.pairs[i].val;
      }
      i := i + 1;
    }
    return false, Null;
  }
}
