/** The version counter that guards a packet's bytes, as interleaved steps of one writer and one reader. */
module Seqlock {
  import opened Bits
  import opened Memory
  import opened Wrapping

  datatype Writer = Idle | Writing(payload: seq<Byte>, copied: set<nat>)

  /** A reader that has read the version `v1`, when `at` version changes had happened, and some bytes. */
  datatype Reader = Off | Reading(v1: nat, got: map<nat, Byte>, at: nat)

  /** The shared words and the two sides; how often the version changed, and the contents of
      the slot at first and after each completed write. */
  datatype Lock = Lock(
    version: nat, slot: seq<Byte>, writer: Writer, reader: Reader,
    ticks: nat, history: seq<seq<Byte>>)

  datatype Step =
    | BeginWrite(payload: seq<Byte>)
    | CopyIn(i: nat)
    | EndWrite
    | BeginRead
    | CopyOut(i: nat)
    | EndRead

  predicate Enabled(s: Lock, step: Step) {
    match step
    case BeginWrite(payload) => s.writer.Idle? && |payload| <= |s.slot|
    case CopyIn(i) => s.writer.Writing? && i < |s.writer.payload| <= |s.slot|
    case EndWrite => s.writer.Writing? && forall i :: 0 <= i < |s.writer.payload| ==> i in s.writer.copied
    case BeginRead => s.reader.Off?
    case CopyOut(i) => s.reader.Reading? && i < |s.slot|
    case EndRead => Complete(s)
  }

  predicate Complete(s: Lock) {
    s.reader.Reading? && forall i :: 0 <= i < |s.slot| ==> i in s.reader.got
  }

  /** Bytes are copied one at a time, in any order; the version goes up before and after a write. */
  function Next(word: nat, s: Lock, step: Step): (s': Lock)
    requires word > 0 && Enabled(s, step)
    ensures |s'.slot| == |s.slot|
  {
    match step
    case BeginWrite(payload) =>
      s.(version := (s.version + 1) % word, ticks := s.ticks + 1, writer := Writing(payload, {}))
    case CopyIn(i) =>
      s.(slot := s.slot[i := s.writer.payload[i]], writer := s.writer.(copied := s.writer.copied + {i}))
    case EndWrite =>
      s.(version := (s.version + 1) % word, ticks := s.ticks + 1, writer := Idle, history := s.history + [s.slot])
    case BeginRead => s.(reader := Reading(s.version, map[], s.ticks))
    case CopyOut(i) => s.(reader := s.reader.(got := s.reader.got[i := s.slot[i]]))
    case EndRead => s.(reader := Off)
  }

  /** The check at the end of a read, which is tried again if it fails. */
  predicate Accepts(s: Lock) {
    Complete(s) && s.reader.v1 == s.version && s.version % 2 == 0
  }

  function Result(s: Lock): (r: seq<Byte>)
    requires Complete(s)
  {
    seq(|s.slot|, i requires 0 <= i < |s.slot| => s.reader.got[i])
  }

  // ---- The invariant ----

  /** The version is even between writes, and the slot then holds what the last write left. */
  ghost predicate WriterOk(word: nat, s: Lock)
    requires word > 0
  {
    && s.version == s.ticks % word
    && s.ticks % 2 == (if s.writer.Idle? then 0 else 1)
    && s.history != []
    && (forall h :: h in s.history ==> |h| == |s.slot|)
    && (s.writer.Idle? ==> s.slot == s.history[|s.history| - 1])
    && (s.writer.Writing? ==>
          && |s.writer.payload| <= |s.slot|
          && var last := s.history[|s.history| - 1];
             forall i :: 0 <= i < |s.slot| ==>
               s.slot[i] == if i < |s.writer.payload| && i in s.writer.copied then s.writer.payload[i] else last[i])
  }

  /** As long as the version has not changed since a read began between writes, its bytes are the slot's. */
  ghost predicate ReaderOk(word: nat, s: Lock)
    requires word > 0
  {
    s.reader.Reading? ==>
      && s.reader.v1 == s.reader.at % word
      && s.reader.at <= s.ticks
      && (s.reader.at == s.ticks && s.writer.Idle? ==>
            forall i :: 0 <= i < |s.slot| && i in s.reader.got ==> s.reader.got[i] == s.slot[i])
  }

  ghost predicate Inv(word: nat, s: Lock) {
    word > 0 && word % 2 == 0 && WriterOk(word, s) && ReaderOk(word, s)
  }

  lemma StepKeeps(word: nat, s: Lock, step: Step)
    requires Inv(word, s) && Enabled(s, step)
    ensures Inv(word, Next(word, s, step))
  {
    AddIs(word, s.ticks, 1);
  }

  /** What a write leaves is its payload, on top of what the slot held before. */
  lemma WriteCompletes(word: nat, s: Lock)
    requires Inv(word, s) && s.writer.Writing? && Enabled(s, EndWrite)
    ensures Next(word, s, EndWrite).history
            == s.history + [Overwrite(s.history[|s.history| - 1], 0, s.writer.payload)]
  {
    assert s.slot == Overwrite(s.history[|s.history| - 1], 0, s.writer.payload);
  }

  /** An accepted read has seen no write at all, if fewer than `word` changes of the version fell into it. */
  lemma AcceptedIsLatest(word: nat, s: Lock)
    requires Inv(word, s) && Accepts(s) && s.ticks - s.reader.at < word
    ensures Result(s) == s.history[|s.history| - 1]
  {
    SubIs(word, s.ticks, s.reader.at);
    ModUnique(0, word, 0, 0);
    assert s.ticks == s.reader.at;
    EvenVersion(word, s.ticks);
    assert s.writer.Idle?;
  }

  /** A complete read is accepted exactly if no write is under way, and no version change fell into it,
      or whole words of them. */
  lemma AcceptedIff(word: nat, s: Lock)
    requires Inv(word, s) && Complete(s)
    ensures Accepts(s) <==> s.writer.Idle? && (s.ticks - s.reader.at) % word == 0
  {
    SameWrapped(word, s.ticks, s.reader.at);
    EvenVersion(word, s.ticks);
  }

  lemma EvenVersion(word: nat, ticks: nat)
    requires word > 0 && word % 2 == 0
    ensures (ticks % word) % 2 == ticks % 2
  {
    CellOfWrapped(word, 2, ticks);
  }

  // ---- Every interleaving ----

  function Start(size: nat): Lock {
    Lock(0, seq(size, _ => 0), Idle, Off, 0, [seq(size, _ => 0)])
  }

  ghost predicate CanRun(word: nat, s: Lock, steps: seq<Step>)
    requires word > 0
    decreases |steps|
  {
    steps == [] || (Enabled(s, steps[0]) && CanRun(word, Next(word, s, steps[0]), steps[1..]))
  }

  ghost function After(word: nat, s: Lock, steps: seq<Step>): (s': Lock)
    requires word > 0 && CanRun(word, s, steps)
    ensures |s'.slot| == |s.slot|
    decreases |steps|
  {
    if steps == [] then s else After(word, Next(word, s, steps[0]), steps[1..])
  }

  lemma {:induction false} RunsKeep(word: nat, s: Lock, steps: seq<Step>)
    requires Inv(word, s) && CanRun(word, s, steps)
    ensures Inv(word, After(word, s, steps))
    decreases |steps|
  {
    if steps != [] {
      StepKeeps(word, s, steps[0]);
      RunsKeep(word, Next(word, s, steps[0]), steps[1..]);
    }
  }

  ghost predicate Reaches(word: nat, s: Lock, s': Lock)
    requires word > 0
  {
    exists steps :: CanRun(word, s, steps) && After(word, s, steps) == s'
  }

  /** Every accepted read into which fewer than `limit` version changes fell returns the
      contents the slot had after some completed write, or the initial zeros; never a mix. */
  ghost predicate NeverMixed(word: nat, size: nat, limit: nat)
    requires word > 0
  {
    forall s :: Reaches(word, Start(size), s) && Accepts(s) && s.ticks - s.reader.at < limit ==>
                  Result(s) in s.history
  }

  lemma FewChangesNeverMix(word: nat, size: nat, limit: nat)
    requires word > 0 && word % 2 == 0 && limit <= word
    ensures NeverMixed(word, size, limit)
  {
    forall s | Reaches(word, Start(size), s) && Accepts(s) && s.ticks - s.reader.at < limit
      ensures Result(s) in s.history
    {
      var steps :| CanRun(word, Start(size), steps) && After(word, Start(size), steps) == s;
      RunsKeep(word, Start(size), steps);
      AcceptedIsLatest(word, s);
    }
  }

  // ---- A whole word of changes goes unnoticed ----

  lemma {:induction false} RunConcat(word: nat, s: Lock, a: seq<Step>, b: seq<Step>)
    requires word > 0 && CanRun(word, s, a) && CanRun(word, After(word, s, a), b)
    ensures CanRun(word, s, a + b) && After(word, s, a + b) == After(word, After(word, s, a), b)
    decreases |a|
  {
    if a == [] {
      assert a + b == b;
    } else {
      assert (a + b)[0] == a[0] && (a + b)[1..] == a[1..] + b;
      RunConcat(word, Next(word, s, a[0]), a[1..], b);
    }
  }

  lemma ReachStep(word: nat, s: Lock, s': Lock, step: Step)
    requires word > 0 && Reaches(word, s, s') && Enabled(s', step)
    ensures Reaches(word, s, Next(word, s', step))
  {
    var steps :| CanRun(word, s, steps) && After(word, s, steps) == s';
    assert CanRun(word, Next(word, s', step), []);
    assert CanRun(word, s', [step]) && After(word, s', [step]) == Next(word, s', step);
    RunConcat(word, s, steps, [step]);
  }

  /** The first `n` bytes of a slot of ones. */
  function Ones(n: nat, size: nat): (r: seq<Byte>)
    ensures |r| == size
  {
    seq(size, i => if i < n then 1 else 0)
  }

  /** A slot of zeros in which a write of ones has copied `n` bytes. */
  ghost predicate Filling(s: Lock, base: Lock, size: nat, n: nat, word: nat) {
    && word > 0 && n <= size && s.writer.Writing?
    && s == base.(version := (base.version + 1) % word, ticks := base.ticks + 1, slot := s.slot,
                  writer := Writing(Ones(size, size), s.writer.copied))
    && (forall i :: i in s.writer.copied <==> 0 <= i < n)
    && |s.slot| == |base.slot| == size
    && (forall i :: 0 <= i < n ==> s.slot[i] == 1)
  }

  /** Writing ones once, from any state between writes. */
  lemma WriteOnes(word: nat, start: Lock, s: Lock, size: nat)
    requires word > 0 && Reaches(word, start, s) && s.writer.Idle? && |s.slot| == size
    ensures Reaches(word, start, s.(version := ((s.version + 1) % word + 1) % word, ticks := s.ticks + 2,
                                    slot := Ones(size, size), history := s.history + [Ones(size, size)]))
  {
    ReachStep(word, start, s, BeginWrite(Ones(size, size)));
    var t := Next(word, s, BeginWrite(Ones(size, size)));
    var n := 0;
    while n < size
      invariant n <= size && Reaches(word, start, t) && Filling(t, s, size, n, word)
    {
      ReachStep(word, start, t, CopyIn(n));
      t := Next(word, t, CopyIn(n));
      n := n + 1;
    }
    assert t.slot == Ones(size, size);
    ReachStep(word, start, t, EndWrite);
  }

  /** Any number of such writes while a read is under way. */
  lemma {:induction false} ManyWrites(word: nat, start: Lock, s: Lock, size: nat, n: nat) returns (s': Lock)
    requires word > 0 && Reaches(word, start, s) && s.writer.Idle? && |s.slot| == size
    requires s.version == s.ticks % word
    ensures Reaches(word, start, s') && s'.writer.Idle? && s'.reader == s.reader && s'.ticks == s.ticks + 2 * n
    ensures s'.version == s'.ticks % word
    ensures |s'.slot| == size && s'.slot == (if n == 0 then s.slot else Ones(size, size))
    ensures forall h :: h in s'.history ==> h in s.history || h == Ones(size, size)
    decreases n
  {
    if n == 0 {
      s' := s;
    } else {
      WriteOnes(word, start, s, size);
      AddIs(word, s.ticks, 1);
      AddIs(word, s.ticks + 1, 1);
      var t := s.(version := ((s.version + 1) % word + 1) % word, ticks := s.ticks + 2,
                  slot := Ones(size, size), history := s.history + [Ones(size, size)]);
      s' := ManyWrites(word, start, t, size, n - 1);
    }
  }

  /** A read of the rest of the slot. */
  lemma ReadRest(word: nat, start: Lock, s: Lock, size: nat) returns (s': Lock)
    requires word > 0 && Reaches(word, start, s) && |s.slot| == size > 0
    requires s.reader.Reading? && s.reader.got.Keys == {0}
    ensures Reaches(word, start, s') && s'.reader.Reading? && s' == s.(reader := s.reader.(got := s'.reader.got)) && Complete(s')
    ensures s'.reader.got[0] == s.reader.got[0]
    ensures forall i :: 1 <= i < size ==> s'.reader.got[i] == s.slot[i]
  {
    s' := s;
    var n := 1;
    while n < size
      invariant 1 <= n <= size && Reaches(word, start, s')
      invariant s'.reader.Reading? && s' == s.(reader := s.reader.(got := s'.reader.got))
      invariant forall i :: i in s'.reader.got <==> 0 <= i < n
      invariant s'.reader.got[0] == s.reader.got[0]
      invariant forall i :: 1 <= i < n ==> s'.reader.got[i] == s.slot[i]
    {
      ReachStep(word, start, s', CopyOut(n));
      s' := Next(word, s', CopyOut(n));
      n := n + 1;
    }
  }

  /** With half a word of writes between its first and its second byte, a read is accepted
      although its first byte is older than the rest. */
  lemma WholeWordMixes(word: nat, size: nat, limit: nat)
    requires word > 0 && word % 2 == 0 && size >= 2 && limit > word
    ensures !NeverMixed(word, size, limit)
  {
    var start := Start(size);
    assert CanRun(word, start, []) && After(word, start, []) == start;
    ReachStep(word, start, start, BeginRead);
    var s1 := Next(word, start, BeginRead);
    ReachStep(word, start, s1, CopyOut(0));
    var s2 := Next(word, s1, CopyOut(0));
    ModUnique(0, word, 0, 0);
    var s3 := ManyWrites(word, start, s2, size, word / 2);
    ModUnique(word, word, 1, 0);
    var s4 := ReadRest(word, start, s3, size);
    assert Result(s4)[0] == 0 && Result(s4)[1] == 1;
    assert Ones(size, size)[0] == 1;
    assert start.history[0][1] == 0;
    assert Result(s4) !in s4.history;
    assert Accepts(s4) && s4.ticks - s4.reader.at == word;
  }

  /** Reads are never mixed exactly when fewer version changes than the counter has values fall
      into one attempt: for 32 bits, fewer than 2^31 writes. */
  lemma NeverMixedIff(word: nat, size: nat, limit: nat)
    requires word > 0 && word % 2 == 0 && size >= 2
    ensures NeverMixed(word, size, limit) <==> limit <= word
  {
    if limit <= word {
      FewChangesNeverMix(word, size, limit);
    } else {
      WholeWordMixes(word, size, limit);
    }
  }
}
