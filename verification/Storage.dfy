/** Saving to and loading from a file's bytes: the envelope around the payload. */
module Storage {
  import opened Words
  import opened Domain
  import opened Bounds
  import opened Codec
  import opened Records
  import opened Ordering
  import opened StateCodec
  import opened Payload
  import opened Sizes
  import opened Sealing
  import Envelope

  /** The bytes that `save` writes; a payload over the envelope's bound is not written at all. */
  function Saved(st: State<Bits>): Option<seq<u8>> {
    if |Serialize(st)| > Envelope.MAX_PAYLOAD then None else Some(Envelope.Wrap(Serialize(st)))
  }

  /** A file whose envelope is refused leaves the state alone. */
  function LoadFile(file: seq<u8>, st: State<Bits>): Loaded {
    match Envelope.Unwrap(file)
    case Rejected(_) => Loaded(st, false)
    case Accepted(payload) => Load(payload, st)
  }

  method Save(a: Archive) returns (file: Option<seq<u8>>)
    ensures file == Saved(a.Contents())
  {
    var payload := a.SerializeState();
    file := Envelope.Encode(payload);
  }

  method LoadInto(a: Archive, file: seq<u8>) returns (ok: bool)
    modifies a
    ensures Loaded(a.Contents(), ok) == LoadFile(file, old(a.Contents()))
  {
    if file == [] {
      return false;
    }
    var d := Envelope.Decode(file);
    if d.Rejected? {
      return false;
    }
    ok := a.DeserializeState(d.payload);
  }

  /**
    Every state that can be saved at all: its file loads, into any observatory, exactly when the state
    is within the reader's limits, and then it restores the state that was saved.
   */
  lemma FileRestores(st: State<Bits>, into: State<Bits>)
    requires Keyed(st) && Saved(st).Some?
    ensures LoadFile(Saved(st).value, into).ok <==> StateWithin(st, READER)
    ensures StateWithin(st, READER) ==>
              LoadFile(Saved(st).value, into)
                == Loaded(st.(matrix := SetAll(into.matrix, InOrder(st.comparisons))), true)
  {
    Envelope.UnwrapWrap(Serialize(st));
    SmallIsSavable(st);
    Restore(st, into);
  }

  lemma OneWorkerWithin(name: Text, l: Limits)
    requires l.count >= 1
    ensures StateWithin(OneWorker(name), l) <==> |name| <= l.text
  {
    var m := OneWorker(name).workers;
    assert m[1] == Worker(1, name, true) && forall k :: k in m ==> k == 1;
  }

  /** A string may have 16 MiB, and no byte more. */
  lemma NameLimit(name: Text, into: State<Bits>)
    requires |name| <= 0xFFFF_FFFF_FFFF_FFFF
    ensures Load(Serialize(OneWorker(name)), into).ok <==> |name| <= 16_777_216
  {
    OneWorkerWithin(name, WRITER);
    OneWorkerWithin(name, READER);
    Restore(OneWorker(name), into);
  }

  /** An observatory that knows some recoveries and nothing else. */
  function OnlyRecoveries(cells: set<CellKey>): State<Bits> {
    Fresh<Bits>(1, 1).(recoveries := cells)
  }

  /** A collection may have fifty million entries, and not one more. */
  lemma CountLimit(cells: set<CellKey>, into: State<Bits>)
    requires |cells| <= 0xFFFF_FFFF
    ensures Load(Serialize(OnlyRecoveries(cells)), into).ok <==> |cells| <= 50_000_000
  {
    Restore(OnlyRecoveries(cells), into);
  }

  /** One worker with a name over 16 MiB: the save succeeds, and no observatory loads the file. */
  lemma LongNameRefused(name: Text, into: State<Bits>)
    requires MAX_STRING < |name| && |name| + 29 <= LARGEST
    ensures var st := OneWorker(name); Saved(st).Some? && !LoadFile(Saved(st).value, into).ok
  {
    var st := OneWorker(name);
    OneWorkerSize(name);
    assert !WorkerWithin(st.workers[1], READER);
    FileRestores(st, into);
  }

  /** A file with up to four consecutive bytes changed is refused, and the state is as it was. */
  lemma CorruptionIsHarmless(st: State<Bits>, file: seq<u8>, i: nat, into: State<Bits>)
    ensures Saved(st).Some? && DifferWithin(Saved(st).value, file, i) && file != Saved(st).value ==>
              LoadFile(file, into) == Loaded(into, false)
  {
    if Saved(st).Some? && DifferWithin(Saved(st).value, file, i) && file != Saved(st).value {
      Envelope.BurstRejected(Serialize(st), file, i);
    }
  }

  /** A truncated file is refused as well, and so is one with anything appended. */
  lemma ResizedIsHarmless(st: State<Bits>, file: seq<u8>, into: State<Bits>)
    ensures Saved(st).Some? && (file < Saved(st).value || Saved(st).value < file) ==>
              LoadFile(file, into) == Loaded(into, false)
  {
    if Saved(st).Some? && Envelope.Unwrap(file).Accepted? {
      Envelope.SameLength(Serialize(st), file);
    }
  }
}
