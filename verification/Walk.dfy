/** Reading the instructions of a message one by one while checking each, as the loops of
    libsol/message.c do. */
module Walk {
  import opened Bytes
  import opened Wire

  /** Instructions already read, put before the ones still to be read. */
  ghost function Prepend(done: seq<Instruction>, more: Parsed<seq<Instruction>>): Parsed<seq<Instruction>> {
    if more.Fail? then Fail else Done(done + more.value, more.rest)
  }

  lemma PrependAttach(done: seq<Instruction>, i: Instruction, more: Parsed<seq<Instruction>>)
    ensures Prepend(done, Attach(i, more)) == Prepend(done + [i], more)
  {
    if more.Done? {
      assert done + ([i] + more.value) == done + [i] + more.value;
    }
  }

  lemma {:induction false} ReadStep(s: seq<byte>, n: nat, left: nat)
    requires n > 0 && left == n - 1
    ensures ReadInstruction(s).Fail? ==> ReadInstructions(s, n).Fail?
    ensures ReadInstruction(s).Done? ==>
              ReadInstructions(s, n)
              == Attach(ReadInstruction(s).value, ReadInstructions(ReadInstruction(s).rest, left))
  {
    ReadManyStep(ReadInstruction, s, n, left);
  }

  /** Every instruction passes the check ok for its position. */
  ghost predicate Accepts(all: Parsed<seq<Instruction>>, ok: (Instruction, nat) -> bool) {
    all.Done? && forall k :: 0 <= k < |all.value| ==> ok(all.value[k], k)
  }

  /** done was read and passed, more is what reading the rest gives, and all what reading
      the whole message gives. */
  ghost predicate Walking(all: Parsed<seq<Instruction>>, done: seq<Instruction>, more: Parsed<seq<Instruction>>,
                          ok: (Instruction, nat) -> bool) {
    all == Prepend(done, more) && forall k :: 0 <= k < |done| ==> ok(done[k], k)
  }

  /** The instruction read from s passes as the k-th. */
  ghost predicate NextPasses(s: seq<byte>, k: nat, ok: (Instruction, nat) -> bool) {
    ReadInstruction(s).Done? && ok(ReadInstruction(s).value, k)
  }

  lemma WalkOn(all: Parsed<seq<Instruction>>, done: seq<Instruction>, i: Instruction, more: Parsed<seq<Instruction>>,
               ok: (Instruction, nat) -> bool)
    requires Walking(all, done, Attach(i, more), ok)
    ensures ok(i, |done|) ==> Walking(all, done + [i], more, ok)
    ensures !ok(i, |done|) ==> !Accepts(all, ok)
  {
    PrependAttach(done, i, more);
    if !ok(i, |done|) && all.Done? {
      assert all.value[|done|] == i;
    }
  }

  /** One step, with n instructions to be read and left after it: what was read if the next
      one passes, and a refusal of the whole message if it does not. */
  lemma WalkNext(all: Parsed<seq<Instruction>>, done: seq<Instruction>, s: seq<byte>, n: nat, left: nat,
                 ok: (Instruction, nat) -> bool)
    requires n > 0 && left == n - 1 && Walking(all, done, ReadInstructions(s, n), ok)
    ensures NextPasses(s, |done|, ok) ==>
              Walking(all, done + [ReadInstruction(s).value], ReadInstructions(ReadInstruction(s).rest, left), ok)
    ensures !NextPasses(s, |done|, ok) ==> !Accepts(all, ok)
  {
    ReadStep(s, n, left);
    var i := ReadInstruction(s);
    if i.Done? {
      WalkOn(all, done, i.value, ReadInstructions(i.rest, left), ok);
    }
  }

  lemma WalkStart(all: Parsed<seq<Instruction>>, ok: (Instruction, nat) -> bool)
    ensures Walking(all, [], all, ok)
  {
    if all.Done? { assert [] + all.value == all.value; }
  }

  lemma WalkEnd(all: Parsed<seq<Instruction>>, done: seq<Instruction>, s: seq<byte>, ok: (Instruction, nat) -> bool)
    requires Walking(all, done, Done([], s), ok)
    ensures all == Done(done, s) && Accepts(all, ok)
  {
    assert done + [] == done;
  }
}
