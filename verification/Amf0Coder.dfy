/** The AMF 0 decoder and encoders as the program runs them: a moving offset, and an output buffer. */
module Amf0Coder {
  import opened Amf0
  import opened Buffers
  import opened Bytes

  method DecodeOne(d: seq<byte>, off: nat) returns (r: Outcome)
    requires off <= |d|
    ensures r == Decode(d, off)
    decreases |d| - off, 0
  {
    if off == |d| { return Invalid; }
    var t, at := d[off], off + 1;
    if t == 0 {
      return if at + 8 > |d| then Invalid else Done(Number(d[at..at + 8]), at + 8);
    } else if t == 1 {
      return if at + 1 > |d| then Invalid else Done(Boolean(d[at] != 0), at);
    } else if t == 2 {
      return if at + 2 > |d| then Invalid else DecodeText(d, at + 2, Be16(d[at], d[at + 1]));
    } else if t == 5 {
      return Done(Null, at);
    } else if t == 6 {
      return Done(Undefined, at);
    } else if t == 12 {
      return if at + 4 > |d| then Invalid
        else DecodeText(d, at + 4, Be32(d[at], d[at + 1], d[at + 2], d[at + 3]));
    } else if t == 10 {
      if at + 4 > |d| { return Invalid; }
      var end := SkipElements(d, at + 4, Be32(d[at], d[at + 1], d[at + 2], d[at + 3]));
      return if end == 0 then Invalid else Done(Null, end);
    } else if t == 3 || t == 8 {
      if t == 8 {
        if at + 4 > |d| { return Invalid; }
        at := at + 4;
      }
      var ps := DecodeMembers(d, at);
      return if ps.BadPairs? then Invalid
        else Done(if t == 8 then EcmaArray(ps.pairs) else Object(ps.pairs), ps.off);
    } else {
      return Unsupported;
    }
  }

  method SkipElements(d: seq<byte>, off: nat, count: nat) returns (end: nat)
    requires off <= |d|
    ensures end == Skip(d, off, count)
    decreases |d| - off, 1
  {
    var i := 0;
    end := off;
    while i < count
      invariant i <= count && off <= end <= |d|
      invariant Skip(d, end, count - i) == Skip(d, off, count)
    {
      var r := DecodeOne(d, end);
      if !r.Done? { return 0; }
      end, i := r.off, i + 1;
    }
  }

  method DecodeMembers(d: seq<byte>, start: nat) returns (r: Pairs)
    requires start <= |d|
    ensures r == DecodePairs(d, start, [])
    decreases |d| - start, 2
  {
    hide Decode, DecodePair, Be16;
    var off, pairs := start, [];
    while off + 3 <= |d|
      invariant start <= off <= |d|
      invariant DecodePairs(d, off, pairs) == DecodePairs(d, start, [])
      decreases |d| - off
    {
      var klen := Be16(d[off], d[off + 1]);
      if klen == 0 {
        NoRound(d, off, pairs);
        return if d[off + 2] != 9 then BadPairs else Pairs(pairs, off + 3);
      }
      if off + 2 + klen > |d| {
        assert DecodePairs(d, off, pairs) == DecodeKey(d, off + 2, klen, pairs);
        return BadPairs;
      }
      OneRound(d, off, off + 2, klen, off + 2 + klen, pairs);
      var ok;
      ok, off, pairs := DecodeMember(d, off + 2, off + 2 + klen, pairs);
      if !ok { return BadPairs; }
    }
    return BadPairs;
  }

  /** One pair, whose key stands from `from` to `at`. */
  method DecodeMember(d: seq<byte>, from: nat, at: nat, pairs: seq<Pair>) returns (ok: bool, next: nat, more: seq<Pair>)
    requires from < at <= |d|
    ensures at <= next <= |d| && (ok ==> at < next)
    ensures DecodePair(d, from, at, pairs) == if ok then DecodePairs(d, next, more) else BadPairs
    decreases |d| - at, 1
  {
    var key := Key(d[from..at]);
    var child := DecodeOne(d, at);
    if !child.Done? { return false, at, pairs; }
    return true, child.off, pairs + [Pair(key, child.v)];
  }

  // ---- encoders: they return the number of bytes written, 0 if there is no room

  method EncodeString(out: array<byte>, at: nat, s: seq<byte>) returns (n: nat)
    requires at <= out.Length && 0 !in s
    modifies out
    ensures Wrote(out, old(out[..]), at, Encode(Text(s)), n != 0, at + n)
  {
    var ok, pos := Put(out, at, [2] + Be16Bytes(|s|) + s);
    n := if ok then pos - at else 0;
  }

  method EncodeNumber(out: array<byte>, at: nat, bits: seq<byte>) returns (n: nat)
    requires at <= out.Length && |bits| == 8
    modifies out
    ensures Wrote(out, old(out[..]), at, Encode(Number(bits)), n != 0, at + n)
  {
    var ok, pos := Put(out, at, [0] + bits);
    n := if ok then pos - at else 0;
  }

  method EncodeNull(out: array<byte>, at: nat) returns (n: nat)
    requires at <= out.Length
    modifies out
    ensures Wrote(out, old(out[..]), at, Encode(Null), n != 0, at + n)
  {
    var ok, pos := Put(out, at, [5]);
    n := if ok then pos - at else 0;
  }

  /** The bytes of a strict array of numbers. */
  function Numbers(vals: seq<seq<byte>>): seq<byte>
    requires forall i :: 0 <= i < |vals| ==> |vals[i]| == 8
  {
    [10] + WriteBe32(|vals|) + NumbersFrom(vals, 0)
  }

  function NumbersFrom(vals: seq<seq<byte>>, i: nat): (s: seq<byte>)
    requires i <= |vals| && forall i :: 0 <= i < |vals| ==> |vals[i]| == 8
    ensures |s| == 9 * (|vals| - i)
    decreases |vals| - i
  {
    if i == |vals| then [] else Encode(Number(vals[i])) + NumbersFrom(vals, i + 1)
  }

  /** The decoder steps over what this encoder writes, and drops it. */
  lemma ArrayIsDropped(vals: seq<seq<byte>>, d: seq<byte>, off: nat)
    requires |vals| < U32 && (forall i :: 0 <= i < |vals| ==> |vals[i]| == 8) && off <= |d| && At(d, off, Numbers(vals))
    ensures Decode(d, off) == Done(Null, off + |Numbers(vals)|)
  {
    hide Encode;
    var size, rest := WriteBe32(|vals|), NumbersFrom(vals, 0);
    assert Numbers(vals) == [10] + (size + rest);
    AtSplits(d, off, [10], size + rest);
    AtSplits(d, off + 1, size, rest);
    FirstByte(d, off, [10]);
    CountAt(d, off + 1, |vals|);
    ElementsSkipped(vals, 0, d, off + 5);
  }

  lemma CountAt(d: seq<byte>, off: nat, n: nat)
    requires n < U32 && At(d, off, WriteBe32(n))
    ensures Be32(d[off], d[off + 1], d[off + 2], d[off + 3]) == n
  {
    Be32Inverse(n);
    var w := d[off..off + 4];
    assert w[0] == d[off] && w[1] == d[off + 1] && w[2] == d[off + 2] && w[3] == d[off + 3];
  }

  lemma {:induction false} ElementsSkipped(vals: seq<seq<byte>>, i: nat, d: seq<byte>, off: nat)
    requires i <= |vals| && (forall i :: 0 <= i < |vals| ==> |vals[i]| == 8) && off <= |d| && At(d, off, NumbersFrom(vals, i))
    ensures Skip(d, off, |vals| - i) == off + |NumbersFrom(vals, i)|
    decreases |vals| - i
  {
    if i < |vals| {
      AtSplits(d, off, Encode(Number(vals[i])), NumbersFrom(vals, i + 1));
      LeafSurvives(Number(vals[i]), d, off);
      ElementsSkipped(vals, i + 1, d, off + 9);
    }
  }

  lemma NextNumber(vals: seq<seq<byte>>, i: nat, done: seq<byte>)
    requires i < |vals| && forall j :: 0 <= j < |vals| ==> |vals[j]| == 8
    ensures Encode(Number(vals[i])) == [0] + vals[i]
    ensures done + NumbersFrom(vals, i) == (done + Encode(Number(vals[i]))) + NumbersFrom(vals, i + 1)
  {
  }

  method EncodeNumbers(out: array<byte>, at: nat, vals: seq<seq<byte>>) returns (n: nat)
    requires at <= out.Length && forall i :: 0 <= i < |vals| ==> |vals[i]| == 8
    modifies out
    ensures |vals| > 0x7fff_ffff ==> n == 0 && out[..] == old(out[..])
    ensures |vals| <= 0x7fff_ffff ==> Wrote(out, old(out[..]), at, Numbers(vals), n != 0, at + n)
  {
    ghost var before := out[..];
    if |vals| > 0x7fff_ffff || out.Length - at < 5 + |vals| * 9 { return 0; }
    ghost var done := [10] + WriteBe32(|vals|);
    var ok, pos := Put(out, at, [10] + WriteBe32(|vals|));
    var i := 0;
    while i < |vals|
      invariant i <= |vals| && 0 <= pos && Wrote(out, before, at, done, true, pos)
      invariant Numbers(vals) == done + NumbersFrom(vals, i)
    {
      NextNumber(vals, i, done);
      ok, pos := PutNext(out, [0] + vals[i], at, pos, before, done);
      done, i := done + Encode(Number(vals[i])), i + 1;
    }
    assert Numbers(vals) == done;
    n := pos - at;
  }
}
