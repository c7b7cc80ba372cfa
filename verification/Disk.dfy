/** The data file and the outcomes of the operations on it. */
module Disk {
  import opened Bytes

  /** What a run takes from outside: which file operation succeeds, the clock and the pieces of the trace text
      at each operation, and the two configured limits. */
  datatype Env = Env(ok: nat -> bool, clock: nat -> int, trace: nat -> seq<string>, maxDataSize: nat, maxForwardPaths: nat)

  /** The file slot: its bytes and position, and the number of operations tried so far in the run. */
  datatype Disk = Disk(bytes: string, pos: nat, ops: nat)

  /** Writing behind the end fills the gap with zeros. */
  function Overwrite(bytes: string, pos: nat, s: string): string {
    seq(if pos + |s| <= |bytes| then |bytes| else pos + |s|, (i: nat) =>
      if pos <= i < pos + |s| then s[i - pos] else if i < |bytes| then bytes[i] else '\0')
  }

  function Write(e: Env, d: Disk, s: string): (Disk, bool) {
    if e.ok(d.ops) then (Disk(Overwrite(d.bytes, d.pos, s), d.pos + |s|, d.ops + 1), true)
    else (d.(ops := d.ops + 1), false)
  }

  /** Writes the pieces one after the other and stops at the first failure. */
  function WriteAll(e: Env, d: Disk, pieces: seq<string>): (r: (Disk, bool))
    ensures d.ops <= r.0.ops
    decreases pieces
  {
    if pieces == [] then (d, true)
    else
      var (d1, ok) := Write(e, d, pieces[0]);
      if ok then WriteAll(e, d1, pieces[1..]) else (d1, false)
  }

  function SeekTo(d: Disk, pos: nat): Disk {
    d.(pos := pos)
  }

  function SeekEnd(d: Disk): Disk {
    d.(pos := |d.bytes|)
  }

  ghost predicate AllOk(e: Env, from: nat, n: nat) {
    forall i :: from <= i < from + n ==> e.ok(i)
  }

  ghost predicate AtEnd(d: Disk) {
    d.pos == |d.bytes|
  }

  /** A run of writes succeeds exactly when each of its operations does, and then appends the pieces. */
  lemma {:induction false} WriteAllOutcome(e: Env, d: Disk, pieces: seq<string>)
    requires AtEnd(d)
    ensures WriteAll(e, d, pieces).1 <==> AllOk(e, d.ops, |pieces|)
    ensures WriteAll(e, d, pieces).1 ==>
      WriteAll(e, d, pieces).0 == Disk(d.bytes + Concat(pieces), |d.bytes + Concat(pieces)|, d.ops + |pieces|)
    ensures d.ops <= WriteAll(e, d, pieces).0.ops <= d.ops + |pieces|
    decreases pieces
  {
    if pieces == [] {
      assert d.bytes + "" == d.bytes;
    } else {
      var (d1, ok) := Write(e, d, pieces[0]);
      if ok {
        assert d1.bytes == d.bytes + pieces[0];
        WriteAllOutcome(e, d1, pieces[1..]);
        Regroup(d.bytes, pieces[0], Concat(pieces[1..]));
        assert AllOk(e, d.ops, |pieces|) <==> AllOk(e, d1.ops, |pieces| - 1);
      }
    }
  }

  lemma OverwriteInside(bytes: string, pos: nat, s: string)
    requires pos + |s| <= |bytes|
    ensures Overwrite(bytes, pos, s) == bytes[..pos] + s + bytes[pos + |s|..]
  {
  }

  class File {
    const env: Env
    var bytes: string
    var pos: nat
    var ops: nat

    function State(): Disk
      reads this
    {
      Disk(bytes, pos, ops)
    }

    constructor (env: Env)
      ensures this.env == env && State() == Disk("", 0, 0)
    {
      this.env := env;
      bytes, pos, ops := "", 0, 0;
    }

    /** Any operation whose only result is whether it succeeded. */
    method Try() returns (ok: bool)
      modifies `ops
      ensures ok == env.ok(old(ops)) && ops == old(ops) + 1
    {
      ok := env.ok(ops);
      ops := ops + 1;
    }

    method Put(s: string) returns (ok: bool)
      modifies this
      ensures (State(), ok) == Write(env, old(State()), s)
    {
      ok := Try();
      if ok {
        bytes := Overwrite(bytes, pos, s);
        pos := pos + |s|;
      }
    }

    method Seek(to: nat)
      modifies `pos
      ensures State() == SeekTo(old(State()), to)
    {
      pos := to;
    }

    method SeekToEnd()
      modifies `pos
      ensures State() == SeekEnd(old(State()))
    {
      pos := |bytes|;
    }

    /** Leaves an empty slot, as truncating and closing do, and as opening a new file does. */
    method Clear()
      modifies `bytes, `pos
      ensures State() == Disk("", 0, old(ops))
    {
      bytes, pos := "", 0;
    }
  }
}
