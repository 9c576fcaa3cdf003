/** The frame ring: as an object whose calls do not overlap, and as a writer and a reader whose cell
    accesses interleave. */
module FrameRing {
  import opened Bytes

  /** The eight words of a descriptor: sequence, time, width, height, stride, pixel format, slot and
      payload size, in their order in memory. */
  const WORDS := 8
  const SLOT_WORD := 6
  const SIZE_WORD := 7

  /** One call of `write`. */
  datatype Frame = Frame(words: seq<nat>, data: seq<nat>)

  predicate WellFormed(f: Frame) {
    |f.words| == WORDS
  }

  /** The size word is 32 bits wide. */
  function Payload(f: Frame): (n: nat)
    ensures n <= |f.data|
  {
    |f.data| % U32_LIMIT
  }

  /** The descriptor as it is stored. */
  function Stored(f: Frame, index: nat): (words: seq<nat>)
    requires WellFormed(f)
    ensures |words| == WORDS
  {
    f.words[SLOT_WORD := index % U32_LIMIT][SIZE_WORD := Payload(f)]
  }

  /** What a reader of the stored frame copies out: the descriptor, then the payload. */
  function Image(f: Frame, index: nat): (cells: seq<nat>)
    requires WellFormed(f)
    ensures |cells| == WORDS + Payload(f)
  {
    Stored(f, index) + f.data[..Payload(f)]
  }

  // ---------------------------------------------------------------- calls that do not overlap

  class Ring {
    const slots: array<seq<nat>>
    const storage: array<nat>
    const bytesPerSlot: nat
    var writeSequence: nat
    var latestSlot: nat
    ghost var history: seq<Frame>
    ghost var latestOffset: nat

    /** The slot and the bytes hold a frame. */
    ghost predicate Holds(f: Frame, index: nat, offset: nat)
      reads slots, storage
    {
      && WellFormed(f) && index < slots.Length && slots[index] == Stored(f, index)
      && offset + |f.data| <= storage.Length && storage[offset..offset + |f.data|] == f.data
    }

    ghost predicate Valid()
      reads this, slots, storage
    {
      && storage.Length == slots.Length * bytesPerSlot
      && latestOffset == latestSlot * bytesPerSlot
      && (forall i :: 0 <= i < slots.Length ==> |slots[i]| == WORDS)
      && writeSequence == |history|
      && (slots.Length > 0 ==> latestSlot < slots.Length)
      && (history == [] && slots.Length > 0 ==> slots[latestSlot][SIZE_WORD] == 0)
      && (history != [] ==>
            var f := history[|history| - 1];
            && slots.Length > 0 && latestSlot == (|history| - 1) % slots.Length
            && Holds(f, latestSlot, latestOffset))
    }

    constructor (count: nat, bytesPerSlot: nat)
      ensures Valid() && history == [] && slots.Length == count && this.bytesPerSlot == bytesPerSlot
      ensures fresh(slots) && fresh(storage)
    {
      slots := new seq<nat>[count](_ => [0, 0, 0, 0, 0, 0, 0, 0]);
      storage := new nat[count * bytesPerSlot](_ => 0);
      this.bytesPerSlot := bytesPerSlot;
      writeSequence, latestSlot, history, latestOffset := 0, 0, [], 0;
    }

    /** `std::copy` into one slot. */
    method CopyIn(offset: nat, data: seq<nat>)
      requires offset + |data| <= storage.Length
      modifies storage
      ensures storage[offset..offset + |data|] == data
      ensures forall j :: 0 <= j < storage.Length && !(offset <= j < offset + |data|) ==> storage[j] == old(storage[j])
    {
      var i := 0;
      while i < |data|
        invariant i <= |data|
        invariant forall j :: 0 <= j < i ==> storage[offset + j] == data[j]
        invariant forall j :: 0 <= j < storage.Length && !(offset <= j < offset + i) ==> storage[j] == old(storage[j])
      {
        storage[offset + i] := data[i];
        i := i + 1;
      }
    }

    /** The bytes, then the descriptor with its slot and size. */
    method StoreFrame(f: Frame, index: nat, offset: nat)
      requires WellFormed(f) && index < slots.Length && offset + |f.data| <= storage.Length
      modifies slots, storage
      ensures Holds(f, index, offset)
      ensures forall j :: 0 <= j < slots.Length && j != index ==> slots[j] == old(slots[j])
    {
      CopyIn(offset, f.data);
      slots[index] := f.words;
      slots[index] := slots[index][SLOT_WORD := index % U32_LIMIT];
      slots[index] := slots[index][SIZE_WORD := |f.data| % U32_LIMIT];
    }

    /** Where the next write goes. */
    method NextPlace() returns (index: nat, offset: nat)
      requires slots.Length > 0
      ensures index == writeSequence % slots.Length < slots.Length
      ensures offset == index * bytesPerSlot && offset + bytesPerSlot <= slots.Length * bytesPerSlot
    {
      index := writeSequence % slots.Length;
      offset := index * bytesPerSlot;
      SlotFits(index, slots.Length, bytesPerSlot);
    }

    method Write(f: Frame) returns (done: bool)
      requires Valid() && WellFormed(f)
      modifies this, slots, storage
      ensures Valid()
      ensures done == (slots.Length > 0 && |f.data| <= bytesPerSlot)
      ensures history == if done then old(history) + [f] else old(history)
    {
      if slots.Length == 0 || |f.data| > bytesPerSlot {
        return false;
      }
      var index, offset := NextPlace();
      writeSequence := writeSequence + 1;
      StoreFrame(f, index, offset);
      latestSlot, latestOffset := index, offset;
      history := history + [f];
      return true;
    }

    /** The last successful write, unless it was empty or there was none. */
    method Latest() returns (found: bool, words: seq<nat>, data: seq<nat>)
      requires Valid()
      ensures found <==> history != [] && Payload(history[|history| - 1]) != 0
      ensures found ==> words + data == Image(history[|history| - 1], (|history| - 1) % slots.Length)
    {
      words, data := [], [];
      if slots.Length == 0 {
        return false, words, data;
      }
      var index := latestSlot;
      words := slots[index];
      if words[SIZE_WORD] == 0 {
        return false, words, data;
      }
      var offset := index * bytesPerSlot;
      ghost var f := history[|history| - 1];
      data := CopyOut(f, index, offset, words[SIZE_WORD]);
      found := true;
    }

    /** `assign` from one slot. */
    method CopyOut(ghost f: Frame, ghost index: nat, offset: nat, size: nat) returns (data: seq<nat>)
      requires Holds(f, index, offset) && size == Payload(f)
      ensures data == f.data[..size]
    {
      data := storage[offset..offset + size];
      assert data == storage[offset..offset + |f.data|][..size];
    }
  }

  lemma SlotFits(index: nat, count: nat, size: nat)
    requires index < count
    ensures index * size + size <= count * size
  {
    var left := count - index - 1;
    assert left * size >= 0;
    assert (index + 1) * size == index * size + size;
    assert count * size == (index + 1) * size + left * size by {
      assert count == (index + 1) + left;
    }
  }

  // ---------------------------------------------------------------- calls that interleave

  /** The writer is between two writes, or has made `pc` of the stores of the last one begun. */
  datatype Writer = Idle | Writing(pc: nat)

  /** The reader has loaded the slot of write `source` (-1 before any) and copied some cells of it. */
  datatype Reader = Waiting | Reading(source: int, index: nat, got: seq<nat>)

  /** A slot's cells are its descriptor words and then its bytes. */
  datatype State = State(memory: seq<seq<nat>>, writes: seq<Frame>, writer: Writer, latest: nat, reader: Reader)

  datatype Size = Size(slots: nat, bytes: nat)

  datatype Action = Begin(frame: Frame) | Put | Publish | Load | Fetch

  function Zeros(n: nat): (cells: seq<nat>)
    ensures |cells| == n && forall i :: 0 <= i < n ==> cells[i] == 0
  {
    seq(n, _ => 0)
  }

  function Start(z: Size): State {
    State(seq(z.slots, _ => Zeros(WORDS + z.bytes)), [], Idle, 0, Waiting)
  }

  /** The stores of one write: its bytes, its words, then the slot and size words again. */
  function Stores(f: Frame): nat {
    |f.data| + WORDS + 2
  }

  function Target(f: Frame, pc: nat): nat {
    if pc < |f.data| then WORDS + pc
    else if pc < |f.data| + WORDS then pc - |f.data|
    else if pc == |f.data| + WORDS then SLOT_WORD
    else SIZE_WORD
  }

  function Value(f: Frame, index: nat, pc: nat): nat
    requires WellFormed(f)
  {
    if pc < |f.data| then f.data[pc]
    else if pc < |f.data| + WORDS then f.words[pc - |f.data|]
    else if pc == |f.data| + WORDS then index % U32_LIMIT
    else Payload(f)
  }

  /** How many writes have been published. */
  function Published(s: State): int {
    if s.writer.Writing? then |s.writes| - 1 else |s.writes|
  }

  predicate Complete(r: Reader) {
    r.Reading? && |r.got| >= WORDS && |r.got| >= WORDS + r.got[SIZE_WORD]
  }

  /** A cell outside the slot reads as 0 here; only torn sizes lead there. */
  function CellAt(memory: seq<seq<nat>>, index: nat, offset: nat): nat {
    if index < |memory| && offset < |memory[index]| then memory[index][offset] else 0
  }

  function StoreAt(memory: seq<seq<nat>>, index: nat, offset: nat, value: nat): seq<seq<nat>> {
    if index < |memory| && offset < |memory[index]| then
      var cells: seq<nat> := memory[index][offset := value];
      memory[index := cells]
    else memory
  }

  predicate CanBegin(z: Size, s: State, f: Frame) {
    s.writer.Idle? && z.slots > 0 && |f.data| <= z.bytes && WellFormed(f)
  }

  predicate CanPut(z: Size, s: State) {
    && z.slots > 0 && s.writer.Writing? && s.writes != [] && WellFormed(s.writes[|s.writes| - 1])
    && s.writer.pc < Stores(s.writes[|s.writes| - 1])
  }

  predicate CanPublish(z: Size, s: State) {
    && z.slots > 0 && s.writer.Writing? && s.writes != []
    && s.writer.pc == Stores(s.writes[|s.writes| - 1])
  }

  predicate CanFetch(s: State) {
    s.reader.Reading? && !Complete(s.reader)
  }

  /** One step; a step that cannot be taken changes nothing. */
  function Step(z: Size, s: State, a: Action): State {
    match a
    case Begin(f) => if CanBegin(z, s, f) then s.(writes := s.writes + [f], writer := Writing(0)) else s
    case Put =>
      if CanPut(z, s) then
        var k := |s.writes| - 1;
        var f := s.writes[k];
        s.(memory := StoreAt(s.memory, k % z.slots, Target(f, s.writer.pc), Value(f, k % z.slots, s.writer.pc)),
           writer := Writing(s.writer.pc + 1))
      else s
    case Publish => if CanPublish(z, s) then s.(latest := (|s.writes| - 1) % z.slots, writer := Idle) else s
    case Load => if z.slots > 0 then s.(reader := Reading(Published(s) - 1, s.latest, [])) else s
    case Fetch =>
      if CanFetch(s) then
        s.(reader := s.reader.(got := s.reader.got + [CellAt(s.memory, s.reader.index, |s.reader.got|)]))
      else s
  }

  function RunFrom(z: Size, s: State, actions: seq<Action>): State {
    if actions == [] then s else Step(z, RunFrom(z, s, actions[..|actions| - 1]), actions[|actions| - 1])
  }

  function Run(z: Size, actions: seq<Action>): State {
    RunFrom(z, Start(z), actions)
  }

  // ---------------------------------------------------------------- the invariant

  ghost predicate Shaped(z: Size, s: State) {
    && |s.memory| == z.slots
    && (forall i :: 0 <= i < z.slots ==> |s.memory[i]| == WORDS + z.bytes)
    && (forall j :: 0 <= j < |s.writes| ==> WellFormed(s.writes[j]) && |s.writes[j].data| <= z.bytes)
    && (s.writes != [] ==> z.slots > 0)
    && (s.writes == [] ==> forall i :: 0 <= i < z.slots ==> s.memory[i] == Zeros(WORDS + z.bytes))
    && (s.writer.Writing? ==> s.writes != [] && s.writer.pc <= Stores(s.writes[|s.writes| - 1]))
    && s.latest == (if Published(s) == 0 then 0 else (Published(s) - 1) % z.slots)
  }

  /** A slot's cells after `pc` stores of a write. */
  ghost predicate Written(cells: seq<nat>, f: Frame, index: nat, pc: nat)
    requires WellFormed(f) && |cells| >= WORDS + |f.data|
  {
    && (forall i :: 0 <= i < |f.data| && i < pc ==> cells[WORDS + i] == f.data[i])
    && (forall j :: 0 <= j < WORDS && |f.data| + j < pc ==>
          cells[j] == if j == SLOT_WORD && pc > |f.data| + WORDS then index % U32_LIMIT
                      else if j == SIZE_WORD && pc > |f.data| + WORDS + 1 then Payload(f)
                      else f.words[j])
  }

  /** Write `j` is published and the write that takes over its slot has not begun. */
  predicate Intact(z: Size, s: State, j: nat) {
    j < Published(s) && |s.writes| <= j + z.slots
  }

  ghost predicate SlotsHold(z: Size, s: State)
    requires Shaped(z, s)
  {
    && (forall j: nat :: Intact(z, s, j) ==>
          Written(s.memory[j % z.slots], s.writes[j], j % z.slots, Stores(s.writes[j])))
    && (s.writer.Writing? ==>
          var k := |s.writes| - 1; Written(s.memory[k % z.slots], s.writes[k], k % z.slots, s.writer.pc))
  }

  /** The reader loaded the slot of a published write, or the first slot before any was. */
  predicate Sourced(z: Size, s: State) {
    && s.reader.Reading? && z.slots > 0 && -1 <= s.reader.source < Published(s)
    && s.reader.index == (if s.reader.source < 0 then 0 else s.reader.source % z.slots)
    && (s.reader.source >= 0 ==> WellFormed(s.writes[s.reader.source]))
  }

  /** What the reader's slot held when it was loaded: the image of its write, or an empty descriptor. */
  function Held(z: Size, s: State): (cells: seq<nat>)
    requires Sourced(z, s)
    ensures |cells| >= WORDS && |cells| == WORDS + cells[SIZE_WORD]
  {
    if s.reader.source < 0 then Zeros(WORDS) else Image(s.writes[s.reader.source], s.reader.index)
  }

  /** How many writes may begin before one takes over the reader's slot. */
  function Grace(z: Size, r: Reader): int
    requires r.Reading?
  {
    if r.source < 0 then 0 else r.source + z.slots
  }

  /** While its slot is not taken over, the reader's copy is a piece of what the slot held. */
  ghost predicate ReaderHolds(z: Size, s: State)
    requires Shaped(z, s)
  {
    s.reader.Reading? ==>
      Sourced(z, s) && (|s.writes| <= Grace(z, s.reader) ==> s.reader.got <= Held(z, s))
  }

  ghost predicate Invariant(z: Size, s: State) {
    Shaped(z, s) && SlotsHold(z, s) && ReaderHolds(z, s)
  }

  lemma DistinctSlots(j: nat, k: nat, n: nat)
    requires j < k < j + n
    ensures j % n != k % n
  {
    var d := k / n - j / n;
    assert k - j == d * n + (k % n - j % n);
    assert d >= 1 ==> (d - 1) * n >= 0;
    assert d <= 0 ==> d * n <= 0;
  }

  /** A fully written slot reads back as the image of its frame. */
  lemma WrittenImage(cells: seq<nat>, f: Frame, index: nat, i: nat)
    requires WellFormed(f) && |cells| >= WORDS + |f.data| && Written(cells, f, index, Stores(f)) &&
             i < WORDS + Payload(f)
    ensures cells[i] == Image(f, index)[i]
  {
    if i >= WORDS {
      assert cells[WORDS + (i - WORDS)] == f.data[i - WORDS];
    }
  }

  lemma WrittenNext(cells: seq<nat>, f: Frame, index: nat, pc: nat)
    requires WellFormed(f) && |cells| >= WORDS + |f.data| && Written(cells, f, index, pc) && pc < Stores(f)
    ensures Written(cells[Target(f, pc) := Value(f, index, pc)], f, index, pc + 1)
  {
  }

  lemma BeginKeeps(z: Size, s: State, f: Frame)
    requires Invariant(z, s) && CanBegin(z, s, f)
    ensures Invariant(z, Step(z, s, Begin(f)))
  {
    var e := Step(z, s, Begin(f));
    forall j: nat | Intact(z, e, j) ensures Intact(z, s, j) && e.writes[j] == s.writes[j] {}
    assert Shaped(z, e);
  }

  lemma PutKeeps(z: Size, s: State)
    requires Invariant(z, s) && CanPut(z, s)
    ensures Invariant(z, Step(z, s, Put))
  {
    var e, k := Step(z, s, Put), |s.writes| - 1;
    var f, index := s.writes[k], k % z.slots;
    WrittenNext(s.memory[index], f, index, s.writer.pc);
    assert Shaped(z, e);
    forall j: nat | Intact(z, e, j)
      ensures Intact(z, s, j) && e.memory[j % z.slots] == s.memory[j % z.slots]
    {
      DistinctSlots(j, k, z.slots);
    }
  }

  lemma PublishKeeps(z: Size, s: State)
    requires Invariant(z, s) && CanPublish(z, s)
    ensures Invariant(z, Step(z, s, Publish))
  {
    var e, k := Step(z, s, Publish), |s.writes| - 1;
    assert Shaped(z, e);
    forall j: nat | Intact(z, e, j) ensures j == k || Intact(z, s, j) {}
  }

  /** A slot of an intact write reads as its image. */
  lemma IntactImage(z: Size, s: State, k: nat)
    requires Shaped(z, s) && SlotsHold(z, s) && Intact(z, s, k)
    ensures var image := Image(s.writes[k], k % z.slots);
            |image| <= WORDS + z.bytes && s.memory[k % z.slots][..|image|] == image
  {
    var f, index := s.writes[k], k % z.slots;
    var image, cells := Image(f, index), s.memory[index];
    forall i | 0 <= i < |image| ensures cells[i] == image[i] {
      WrittenImage(cells, f, index, i);
    }
  }

  /** Until it is taken over, the reader's slot starts with what it held. */
  lemma StillHeld(z: Size, s: State)
    requires Invariant(z, s) && s.reader.Reading? && |s.writes| <= Grace(z, s.reader)
    ensures s.reader.index < |s.memory|
    ensures var held := Held(z, s);
            |held| <= |s.memory[s.reader.index]| && s.memory[s.reader.index][..|held|] == held
  {
    if s.reader.source >= 0 {
      IntactImage(z, s, s.reader.source);
    }
  }

  /** The next cell continues the copy of what the slot held. */
  lemma FetchReads(z: Size, s: State)
    requires Invariant(z, s) && CanFetch(s) && |s.writes| <= Grace(z, s.reader)
    ensures Step(z, s, Fetch).reader.got <= Held(z, s)
  {
    var n, held := |s.reader.got|, Held(z, s);
    StillHeld(z, s);
    assert n >= WORDS ==> s.reader.got[SIZE_WORD] == held[SIZE_WORD];
    assert s.memory[s.reader.index][..|held|][n] == s.memory[s.reader.index][n];
    assert s.reader.got + [held[n]] <= held;
  }

  lemma FetchKeeps(z: Size, s: State)
    requires Invariant(z, s) && CanFetch(s)
    ensures Invariant(z, Step(z, s, Fetch))
  {
    var e := Step(z, s, Fetch);
    assert Shaped(z, e);
    assert SlotsHold(z, e) by {
      forall j: nat | Intact(z, e, j) ensures Intact(z, s, j) {}
    }
    if |s.writes| <= Grace(z, s.reader) { FetchReads(z, s); }
  }

  lemma StepKeeps(z: Size, s: State, a: Action)
    requires Invariant(z, s)
    ensures Invariant(z, Step(z, s, a))
  {
    match a
    case Begin(f) => if CanBegin(z, s, f) { BeginKeeps(z, s, f); }
    case Put => if CanPut(z, s) { PutKeeps(z, s); }
    case Publish => if CanPublish(z, s) { PublishKeeps(z, s); }
    case Load => LoadKeeps(z, s);
    case Fetch => if CanFetch(s) { FetchKeeps(z, s); }
  }

  lemma LoadKeeps(z: Size, s: State)
    requires Invariant(z, s)
    ensures Invariant(z, Step(z, s, Load))
  {
    var e := Step(z, s, Load);
    assert Shaped(z, e);
    forall j: nat | Intact(z, e, j) ensures Intact(z, s, j) {}
  }

  lemma {:induction false} AlwaysInvariant(z: Size, s: State, actions: seq<Action>)
    requires Invariant(z, s)
    ensures Invariant(z, RunFrom(z, s, actions))
  {
    if actions != [] {
      AlwaysInvariant(z, s, actions[..|actions| - 1]);
      StepKeeps(z, RunFrom(z, s, actions[..|actions| - 1]), actions[|actions| - 1]);
    }
  }

  lemma StartInvariant(z: Size)
    ensures Invariant(z, Start(z))
  {
    assert Shaped(z, Start(z));
  }

  /** Untorn reads: in every interleaving, a reader that loaded the slot of write k and finished its
      copy before write k + slots began holds exactly write k's descriptor and bytes; one that loaded
      before any write was published, and finished before the first began, an empty descriptor. */
  lemma ReadsAreUntorn(z: Size, actions: seq<Action>)
    requires Complete(Run(z, actions).reader)
    requires |Run(z, actions).writes| <= Grace(z, Run(z, actions).reader)
    ensures var s := Run(z, actions);
            var k := s.reader.source;
            && Sourced(z, s) && s.reader.got == Held(z, s)
            && (k >= 0 ==> s.reader.got == Image(s.writes[k], k % z.slots))
            && (k == -1 ==> s.reader.got == Zeros(WORDS))
  {
    StartInvariant(z);
    AlwaysInvariant(z, Start(z), actions);
  }

  // ---------------------------------------------------------------- a quiet writer

  /** A load and then `n` cell copies. */
  function Copying(n: nat): (actions: seq<Action>)
    ensures |actions| == n + 1
  {
    [Load] + Repeat(Fetch, n)
  }

  lemma RunSnoc(z: Size, s: State, actions: seq<Action>, a: Action)
    ensures RunFrom(z, s, actions + [a]) == Step(z, RunFrom(z, s, actions), a)
  {
    assert (actions + [a])[..|actions|] == actions;
  }

  /** A copy takes the image that the loaded slot starts with. */
  lemma LoadAndCopy(z: Size, s: State, image: seq<nat>, n: nat)
    requires z.slots > 0 && s.latest < |s.memory| && n <= |image|
    requires WORDS <= |image| <= |s.memory[s.latest]| && |image| == WORDS + image[SIZE_WORD]
    requires s.memory[s.latest][..|image|] == image
    ensures RunFrom(z, s, Copying(n)) == s.(reader := Reading(Published(s) - 1, s.latest, image[..n]))
  {
    RunFirst(z, s, Load, Repeat(Fetch, n));
    CopyImage(z, Step(z, s, Load), s.memory[s.latest], image, n);
  }

  lemma QuietCopy(z: Size, s: State, n: nat)
    requires Invariant(z, s) && s.writer.Idle? && s.writes != []
    requires n <= WORDS + Payload(s.writes[|s.writes| - 1])
    ensures var k := |s.writes| - 1;
            RunFrom(z, s, Copying(n)) == s.(reader := Reading(k, k % z.slots, Image(s.writes[k], k % z.slots)[..n]))
  {
    var k := |s.writes| - 1;
    IntactImage(z, s, k);
    LoadAndCopy(z, s, Image(s.writes[k], k % z.slots), n);
  }

  /** With no write under way, a read copies out the last write: it succeeds exactly when that write
      was not empty. */
  lemma QuietReadIsLatest(z: Size, actions: seq<Action>)
    requires Run(z, actions).writer.Idle? && Run(z, actions).writes != []
    ensures var s := Run(z, actions);
            var k := |s.writes| - 1;
            WellFormed(s.writes[k]) && z.slots > 0 &&
            var e := RunFrom(z, s, Copying(WORDS + Payload(s.writes[k])));
            && Complete(e.reader) && e.reader.got == Image(s.writes[k], k % z.slots)
            && (e.reader.got[SIZE_WORD] != 0 <==> |s.writes[k].data| % U32_LIMIT != 0)
  {
    StartInvariant(z);
    AlwaysInvariant(z, Start(z), actions);
    var s := Run(z, actions);
    var k := |s.writes| - 1;
    QuietCopy(z, s, WORDS + Payload(s.writes[k]));
    var image := Image(s.writes[k], k % z.slots);
    assert image[..|image|] == image;
  }

  /** Before the first write begins, a read fails. */
  lemma NothingBeforeFirstWrite(z: Size, actions: seq<Action>)
    requires Run(z, actions).writes == [] && z.slots > 0
    ensures var e := RunFrom(z, Run(z, actions), Copying(WORDS));
            Complete(e.reader) && e.reader.got[SIZE_WORD] == 0
  {
    StartInvariant(z);
    AlwaysInvariant(z, Start(z), actions);
    LoadAndCopy(z, Run(z, actions), Zeros(WORDS), WORDS);
  }

  lemma {:induction false} RunAppend(z: Size, s: State, first: seq<Action>, second: seq<Action>)
    ensures RunFrom(z, s, first + second) == RunFrom(z, RunFrom(z, s, first), second)
  {
    if second == [] {
      assert first + second == first;
    } else {
      var front, a := second[..|second| - 1], second[|second| - 1];
      RunAppend(z, s, first, front);
      RunSnoc(z, s, first + front, a);
      assert first + second == first + front + [a];
    }
  }

  lemma RunFirst(z: Size, s: State, a: Action, rest: seq<Action>)
    ensures RunFrom(z, s, [a] + rest) == RunFrom(z, Step(z, s, a), rest)
  {
    RunSnoc(z, s, [], a);
    assert [] + [a] == [a];
    RunAppend(z, s, [a], rest);
  }

  // ---------------------------------------------------------------- the bound is needed

  function Repeat(a: Action, n: nat): (actions: seq<Action>)
    ensures |actions| == n
  {
    seq(n, _ => a)
  }

  lemma RunRepeat(z: Size, s: State, a: Action, n: nat)
    requires n > 0
    ensures RunFrom(z, s, Repeat(a, n)) == Step(z, RunFrom(z, s, Repeat(a, n - 1)), a)
  {
    assert Repeat(a, n)[..n - 1] == Repeat(a, n - 1);
  }

  /** The writer is `n` stores into the write that `s` has just begun; all else but memory is as in `s`. */
  predicate PartWritten(e: State, s: State, n: nat) {
    e.writer == Writing(n) && e.writes == s.writes && e.reader == s.reader
  }

  lemma PutOnce(z: Size, e: State, s: State, f: Frame, n: nat)
    requires PartWritten(e, s, n) && n < Stores(f) && z.slots > 0
    requires s.writes != [] && s.writes[|s.writes| - 1] == f && WellFormed(f)
    ensures PartWritten(Step(z, e, Put), s, n + 1)
  {
  }

  lemma {:induction false} Putting(z: Size, s: State, f: Frame, n: nat)
    requires z.slots > 0 && s.writer == Writing(0) && n <= Stores(f)
    requires s.writes != [] && s.writes[|s.writes| - 1] == f && WellFormed(f)
    ensures PartWritten(RunFrom(z, s, Repeat(Put, n)), s, n)
  {
    if n > 0 {
      Putting(z, s, f, n - 1);
      RunRepeat(z, s, Put, n);
      PutOnce(z, RunFrom(z, s, Repeat(Put, n - 1)), s, f, n - 1);
    }
  }

  /** A whole write, which the reader sits through. */
  lemma WholeWrite(z: Size, s: State, f: Frame) returns (actions: seq<Action>)
    requires Invariant(z, s) && CanBegin(z, s, f)
    ensures var e := RunFrom(z, s, actions);
            Invariant(z, e) && e.writer.Idle? && e.writes == s.writes + [f] && e.reader == s.reader
  {
    var begun := Step(z, s, Begin(f));
    var puts := Repeat(Put, Stores(f));
    StepKeeps(z, s, Begin(f));
    Putting(z, begun, f, Stores(f));
    AlwaysInvariant(z, begun, puts);
    RunFirst(z, s, Begin(f), puts);
    StepKeeps(z, RunFrom(z, begun, puts), Publish);
    RunSnoc(z, s, [Begin(f)] + puts, Publish);
    actions := [Begin(f)] + puts + [Publish];
  }

  /** The state after `n` more cells were copied. */
  function CopiedOn(s: State, cells: seq<nat>, n: nat): State
    requires s.reader.Reading? && |s.reader.got| + n <= |cells|
  {
    s.(reader := s.reader.(got := s.reader.got + cells[|s.reader.got|..|s.reader.got| + n]))
  }

  /** The slot is this list of cells, and `n` more of them fit the size that was or will be read. */
  predicate CanCopy(s: State, cells: seq<nat>, n: nat) {
    && s.reader.Reading? && s.reader.index < |s.memory| && s.memory[s.reader.index] == cells
    && |s.reader.got| + n <= |cells| && |cells| >= WORDS
    && |s.reader.got| + n <=
       WORDS + if |s.reader.got| > SIZE_WORD then s.reader.got[SIZE_WORD] else cells[SIZE_WORD]
  }

  lemma CopyOne(z: Size, s: State, cells: seq<nat>, n: nat)
    requires CanCopy(s, cells, n + 1)
    ensures Step(z, CopiedOn(s, cells, n), Fetch) == CopiedOn(s, cells, n + 1)
  {
    var from, got := |s.reader.got|, CopiedOn(s, cells, n).reader.got;
    assert got + [cells[from + n]] == s.reader.got + cells[from..from + n + 1];
    assert from <= SIZE_WORD < from + n ==> got[SIZE_WORD] == cells[SIZE_WORD];
  }

  /** Copying on takes the cells as they are now. */
  lemma {:induction false} Fetching(z: Size, s: State, cells: seq<nat>, n: nat)
    requires CanCopy(s, cells, n)
    ensures RunFrom(z, s, Repeat(Fetch, n)) == CopiedOn(s, cells, n)
  {
    if n == 0 {
      assert s.reader.got + cells[|s.reader.got|..|s.reader.got|] == s.reader.got;
    } else {
      Fetching(z, s, cells, n - 1);
      RunRepeat(z, s, Fetch, n);
      CopyOne(z, s, cells, n - 1);
    }
  }

  lemma SameSlot(k: nat, n: nat)
    requires n > 0
    ensures (k + n) % n == k % n
  {
    var q, r := k / n, k % n;
    assert k + n == (q + 1) * n + r by {
      assert k == q * n + r;
      assert (q + 1) * n == q * n + n;
    }
    RemainderUnique(q + 1, r, n);
  }

  lemma RemainderUnique(q: nat, r: nat, n: nat)
    requires r < n
    ensures (q * n + r) % n == r
  {
    var x := q * n + r;
    var d := x / n - q;
    assert x == (x / n) * n + x % n;
    assert (x / n) * n == q * n + d * n;
    assert d >= 1 ==> d * n >= n;
    assert d <= -1 ==> d * n + n <= 0;
  }

  /** The two images differ in two cells, the second of which the reader has still to copy. */
  predicate Tears(before: seq<nat>, after: seq<nat>, copied: nat, i: nat, j: nat) {
    i < j < |before| && j < |after| && copied <= j && before[i] != after[i] && before[j] != after[j]
  }

  lemma PrefixGrows(cells: seq<nat>, image: seq<nat>, got: seq<nat>, m: nat)
    requires |image| <= |cells| && cells[..|image|] == image && got <= image && |got| <= m <= |image|
    ensures got + cells[|got|..m] == image[..m]
  {
    forall i | |got| <= i < m ensures cells[|got|..m][i - |got|] == image[i] {
      assert cells[i] == cells[..|image|][i];
    }
  }

  /** A slot that starts with an image is copied as that image. */
  lemma CopyImage(z: Size, s: State, cells: seq<nat>, image: seq<nat>, m: nat)
    requires s.reader.Reading? && s.reader.index < |s.memory| && s.memory[s.reader.index] == cells
    requires WORDS <= |image| <= |cells| && cells[..|image|] == image && |image| == WORDS + image[SIZE_WORD]
    requires s.reader.got <= image && |s.reader.got| <= m <= |image|
    ensures RunFrom(z, s, Repeat(Fetch, m - |s.reader.got|)) == s.(reader := s.reader.(got := image[..m]))
  {
    var got := s.reader.got;
    assert cells[SIZE_WORD] == cells[..|image|][SIZE_WORD];
    assert |got| > SIZE_WORD ==> got[SIZE_WORD] == image[SIZE_WORD];
    Fetching(z, s, cells, m - |got|);
    PrefixGrows(cells, image, got, m);
  }

  /** First part: the reader copies on, past the first differing cell and not past the second. */
  lemma CopyUpTo(z: Size, s: State, m: nat)
    requires Invariant(z, s) && s.reader.Reading? && |s.writes| <= Grace(z, s.reader)
    requires |s.reader.got| <= m <= |Held(z, s)|
    ensures RunFrom(z, s, Repeat(Fetch, m - |s.reader.got|)) == s.(reader := s.reader.(got := Held(z, s)[..m]))
  {
    StillHeld(z, s);
    CopyImage(z, s, s.memory[s.reader.index], Held(z, s), m);
  }

  /** Last part: the copy is finished over the new frame. */
  lemma FinishOver(z: Size, s: State, before: seq<nat>, m: nat) returns (n: nat)
    requires Invariant(z, s) && s.writer.Idle? && s.writes != [] && z.slots > 0
    requires m < |before| && s.reader.Reading? && s.reader.index == (|s.writes| - 1) % z.slots
    requires s.reader.got == before[..m]
    requires WORDS <= |before| <= WORDS + z.bytes && |before| == WORDS + before[SIZE_WORD]
    requires m < |Image(s.writes[|s.writes| - 1], s.reader.index)|
    ensures var after := Image(s.writes[|s.writes| - 1], s.reader.index);
            var e := RunFrom(z, s, Repeat(Fetch, n));
            && Complete(e.reader) && e.writes == s.writes && e.reader.source == s.reader.source
            && (forall i :: 0 <= i < m ==> i < |e.reader.got| && e.reader.got[i] == before[i])
            && (forall i :: m <= i < |before| && i < |after| ==> i < |e.reader.got| && e.reader.got[i] == after[i])
  {
    var k, index := |s.writes| - 1, s.reader.index;
    var after, cells := Image(s.writes[k], index), s.memory[index];
    IntactImage(z, s, k);
    assert cells[..|after|][SIZE_WORD] == after[SIZE_WORD] == Payload(s.writes[k]);
    var size := if m > SIZE_WORD then |before| else |after|;
    n := size - m;
    assert m > SIZE_WORD ==> s.reader.got[SIZE_WORD] == before[SIZE_WORD];
    Fetching(z, s, cells, n);
    var e := RunFrom(z, s, Repeat(Fetch, n));
    assert e.reader.got == before[..m] + cells[m..size];
    forall i | m <= i < |before| && i < |after| ensures i < |e.reader.got| && e.reader.got[i] == after[i] {
      assert cells[i] == cells[..|after|][i];
    }
  }

  /** Between them: the write that takes over the reader's slot, and then the rest of the copy. */
  lemma OvertakenCopy(z: Size, s: State, f: Frame, before: seq<nat>, m: nat) returns (actions: seq<Action>)
    requires Invariant(z, s) && CanBegin(z, s, f) && s.reader.Reading? && s.reader.index == |s.writes| % z.slots
    requires m < |before| && s.reader.got == before[..m] && m < |Image(f, s.reader.index)|
    requires WORDS <= |before| <= WORDS + z.bytes && |before| == WORDS + before[SIZE_WORD]
    ensures var after := Image(f, s.reader.index);
            var e := RunFrom(z, s, actions);
            && Complete(e.reader) && e.writes == s.writes + [f] && e.reader.source == s.reader.source
            && (forall i :: 0 <= i < m ==> i < |e.reader.got| && e.reader.got[i] == before[i])
            && (forall i :: m <= i < |before| && i < |after| ==> i < |e.reader.got| && e.reader.got[i] == after[i])
  {
    var write := WholeWrite(z, s, f);
    var written := RunFrom(z, s, write);
    var n := FinishOver(z, written, before, m);
    actions := write + Repeat(Fetch, n);
    RunAppend(z, s, write, Repeat(Fetch, n));
  }

  lemma NextTakesOver(z: Size, s: State)
    requires Sourced(z, s) && |s.writes| == Grace(z, s.reader)
    ensures s.reader.index == |s.writes| % z.slots
  {
    if s.reader.source >= 0 { SameSlot(s.reader.source, z.slots); }
  }

  /** On every ring, from every state with an idle writer whose next write takes over the reader's slot:
      a frame that differs in two cells from what the slot held, the second still to be copied, has a
      continuation in which that write begins and the finished copy has the one cell from what the slot
      held and the other from the frame. */
  lemma OvertakenReadTears(z: Size, s: State, f: Frame, i: nat, j: nat) returns (actions: seq<Action>)
    requires Invariant(z, s) && CanBegin(z, s, f) && s.reader.Reading? && |s.writes| == Grace(z, s.reader)
    requires Tears(Held(z, s), Image(f, s.reader.index), |s.reader.got|, i, j)
    ensures var e := RunFrom(z, s, actions);
            var held, after := Held(z, s), Image(f, s.reader.index);
            && Complete(e.reader) && e.reader.source == s.reader.source && e.writes == s.writes + [f]
            && j < |e.reader.got| && e.reader.got[i] == held[i] && e.reader.got[j] == after[j]
            && e.reader.got != held && e.reader.got != after
  {
    var held := Held(z, s);
    var m := if |s.reader.got| <= i then i + 1 else |s.reader.got|;
    var first := Repeat(Fetch, m - |s.reader.got|);
    CopyUpTo(z, s, m);
    AlwaysInvariant(z, s, first);
    StillHeld(z, s);
    NextTakesOver(z, s);
    var rest := OvertakenCopy(z, RunFrom(z, s, first), f, held, m);
    actions := first + rest;
    RunAppend(z, s, first, rest);
  }

  /** More writes of one frame. */
  lemma {:induction false} ManyWrites(z: Size, s: State, f: Frame, n: nat) returns (actions: seq<Action>)
    requires Invariant(z, s) && CanBegin(z, s, f)
    ensures var e := RunFrom(z, s, actions);
            && Invariant(z, e) && e.writer.Idle? && e.reader == s.reader
            && |e.writes| == |s.writes| + n && s.writes <= e.writes
  {
    if n == 0 {
      actions := [];
    } else {
      var earlier := ManyWrites(z, s, f, n - 1);
      var t := RunFrom(z, s, earlier);
      var write := WholeWrite(z, t, f);
      actions := earlier + write;
      RunAppend(z, s, earlier, write);
    }
  }

  /** From the start, on every ring: when two frames differ in two cells, there is a run in which a
      reader of the first is overtaken by the write that takes over its slot, and copies neither. */
  lemma ReadCanTear(z: Size, a: Frame, f: Frame, i: nat, j: nat) returns (actions: seq<Action>)
    requires CanBegin(z, Start(z), a) && CanBegin(z, Start(z), f) && Tears(Image(a, 0), Image(f, 0), 0, i, j)
    ensures var e := Run(z, actions);
            && Complete(e.reader) && e.reader.source == 0
            && |e.writes| == z.slots + 1 && e.writes[0] == a && e.writes[z.slots] == f
            && e.reader.got != Image(a, 0) && e.reader.got != Image(f, 0)
  {
    StartInvariant(z);
    var write := WholeWrite(z, Start(z), a);
    var s1 := Run(z, write);
    StepKeeps(z, s1, Load);
    var s2 := Step(z, s1, Load);
    RunSnoc(z, Start(z), write, Load);
    var more := ManyWrites(z, s2, a, z.slots - 1);
    RunAppend(z, Start(z), write + [Load], more);
    var s3 := Run(z, write + [Load] + more);
    var last := OvertakenReadTears(z, s3, f, i, j);
    actions := write + [Load] + more + last;
    RunAppend(z, Start(z), write + [Load] + more, last);
  }

  /** Before the first write is published no lap is needed: on every ring, when the first frame is not
      empty and has some other word, there is a run in which a reader that loaded before the frame was
      written returns a descriptor that has the frame's size and not that word. */
  lemma FirstReadCanTear(z: Size, f: Frame, i: nat) returns (actions: seq<Action>)
    requires CanBegin(z, Start(z), f) && Payload(f) != 0 && i < SIZE_WORD && Image(f, 0)[i] != 0
    ensures var e := Run(z, actions);
            && Complete(e.reader) && e.reader.source == -1 && e.writes == [f]
            && e.reader.got[SIZE_WORD] == Payload(f) && e.reader.got[i] == 0
  {
    StartInvariant(z);
    StepKeeps(z, Start(z), Load);
    var last := OvertakenReadTears(z, Step(z, Start(z), Load), f, i, SIZE_WORD);
    actions := [Load] + last;
    RunFirst(z, Start(z), Load, last);
  }
}
