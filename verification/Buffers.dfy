/** Writing into a buffer of limited size, piece after piece. */
module Buffers {
  import opened Bytes

  /** `w` was put into `out`, whose contents were `before`, from `at` to `pos`; or it does not fit and only
      bytes behind `at` have changed. */
  ghost predicate Written(now: seq<byte>, before: seq<byte>, at: nat, w: seq<byte>, ok: bool, pos: nat) {
    && |now| == |before| && at <= |now| && now[..at] == before[..at]
    && (ok <==> at + |w| <= |now|)
    && (ok ==> pos == at + |w| && now == before[..at] + w + before[pos..])
  }

  ghost predicate Wrote(out: array<byte>, before: seq<byte>, at: nat, w: seq<byte>, ok: bool, pos: nat)
    reads out
  {
    Written(out[..], before, at, w, ok, pos)
  }

  lemma WroteMore(now: seq<byte>, mid: seq<byte>, before: seq<byte>, at: nat, done: seq<byte>, more: seq<byte>, ok: bool, pos: nat)
    requires Written(mid, before, at, done, true, at + |done|)
    requires Written(now, mid, at + |done|, more, ok, pos)
    ensures Written(now, before, at, done + more, ok, pos)
  {
    assert now[..at] == now[..at + |done|][..at] == mid[..at];
    if ok { assert mid[pos..] == before[pos..]; }
  }

  /** Copies `s` to `out` if it fits. */
  method Put(out: array<byte>, at: nat, s: seq<byte>) returns (ok: bool, pos: nat)
    requires at <= out.Length
    modifies out
    ensures Wrote(out, old(out[..]), at, s, ok, pos)
  {
    ok, pos := at + |s| <= out.Length, at + |s|;
    if ok {
      forall i | 0 <= i < |s| { out[at + i] := s[i]; }
    }
  }

  /** Continues where `done` was put. */
  method PutNext(out: array<byte>, s: seq<byte>, at: nat, pos: nat, ghost before: seq<byte>, ghost done: seq<byte>)
    returns (ok: bool, next: nat)
    requires Wrote(out, before, at, done, true, pos)
    modifies out
    ensures Wrote(out, before, at, done + s, ok, next)
  {
    ghost var mid := out[..];
    ok, next := Put(out, pos, s);
    WroteMore(out[..], mid, before, at, done, s, ok, next);
  }

  lemma TooLong(now: seq<byte>, before: seq<byte>, at: nat, v: seq<byte>, w: seq<byte>, pos: nat)
    requires Written(now, before, at, v, false, pos) && |v| <= |w|
    ensures Written(now, before, at, w, false, pos)
  {
  }
}
