/** The C library's registry of exit handlers: a chain of fixed-size chunks
    of (function, argument) pairs, the newest chunk at the head. The first
    chunk is static, so 32 handlers fit without allocation. Handlers run
    newest first.

    A handler is named, not executed: "running" it appends the pair to the
    trace `ran`. Whether `calloc` succeeds is a parameter. */
module AtExit {

  /** The number of slots in a chunk (`COUNT`). */
  const Count: nat := 32

  /** A function pointer: null, the `call` trampoline, or some handler. */
  datatype Func = NullFunc | CallTrampoline | Fn(id: nat)

  /** A `void *` argument: null, some data pointer, or a function pointer
      cast to `void *`. */
  datatype Arg = NullArg | Data(address: nat) | FuncArg(f: Func)

  /** An entry of a chunk's `f` and `a` arrays at one index. */
  datatype Entry = Entry(func: Func, arg: Arg)

  /** What executing `func(arg)` for an entry amounts to. */
  datatype Call = WithArg(func: Func, arg: Arg) | NoArg(target: Func)

  /** A zero-filled chunk, as static storage and `calloc` give. */
  function ZeroChunk(): (c: seq<Entry>)
    ensures |c| == Count && forall i :: 0 <= i < Count ==> c[i] == Entry(NullFunc, NullArg)
  {
    seq(Count, _ => Entry(NullFunc, NullArg))
  }

  /** `call(p)`: the trampoline calls `p`, cast back to a function, with no
      arguments; every other entry is its function applied to its
      argument. */
  function Invoke(e: Entry): (c: Call)
    ensures e.func == CallTrampoline && e.arg.FuncArg? ==> c == NoArg(e.arg.f)
    ensures e.func != CallTrampoline ==> c == WithArg(e.func, e.arg)
  {
    if e.func == CallTrampoline && e.arg.FuncArg? then NoArg(e.arg.f) else WithArg(e.func, e.arg)
  }

  function Reverse<T>(s: seq<T>): (r: seq<T>)
    ensures |r| == |s|
    ensures forall i :: 0 <= i < |s| ==> r[i] == s[|s| - 1 - i]
  {
    if s == [] then [] else [s[|s| - 1]] + Reverse(s[..|s| - 1])
  }

  /** Every entry of the chunks, each chunk from its last slot down. */
  function RunOrder(chunks: seq<seq<Entry>>): seq<Entry>
  {
    if chunks == [] then [] else Reverse(chunks[0]) + RunOrder(chunks[1..])
  }

  /** The entries `__funcs_on_exit` would run for a chain whose head chunk
      is filled up to `slot`. */
  function PendingOf(chain: seq<seq<Entry>>, slot: nat): seq<Entry>
    requires chain != [] ==> slot <= |chain[0]|
  {
    if chain == [] then [] else Reverse(chain[0][..slot]) + RunOrder(chain[1..])
  }

  lemma AppendAssoc<T>(a: seq<T>, b: seq<T>, c: seq<T>)
    ensures (a + b) + c == a + (b + c)
  {
  }

  lemma ReverseSnoc<T>(s: seq<T>, x: T)
    ensures Reverse(s + [x]) == [x] + Reverse(s)
  {
    assert (s + [x])[..|s|] == s;
  }

  /** Storing entry `e` at `slot` of the head chunk and moving `slot` on
      puts `e` in front of the pending entries. */
  lemma StorePending(chain: seq<seq<Entry>>, slot: nat, e: Entry)
    requires chain != [] && slot < |chain[0]|
    ensures PendingOf(chain[0 := chain[0][slot := e]], slot + 1) == [e] + PendingOf(chain, slot)
  {
    var head := chain[0][slot := e];
    var updated := chain[0 := head];
    assert head[..slot + 1] == chain[0][..slot] + [e];
    ReverseSnoc(chain[0][..slot], e);
    assert updated[1..] == chain[1..];
    assert PendingOf(updated, slot + 1) == Reverse(head[..slot + 1]) + RunOrder(updated[1..]);
    AppendAssoc([e], Reverse(chain[0][..slot]), RunOrder(chain[1..]));
  }

  /** Every chunk has COUNT slots. */
  predicate Sized(chunks: seq<seq<Entry>>)
  {
    forall i :: 0 <= i < |chunks| ==> |chunks[i]| == Count
  }

  /** The static chunk, the allocated chunks (head first) and `slot`. */
  datatype Chunks = Chunks(builtin: seq<Entry>, extra: seq<seq<Entry>>, slot: nat)
  {
    predicate Ok()
    {
      |builtin| == Count && Sized(extra) && slot <= Count
    }

    function Chain(): seq<seq<Entry>>
    {
      extra + [builtin]
    }
  }

  /** `if (slot == COUNT)`: a full head chunk gets a fresh zeroed chunk in
      front of it, with `slot` back at 0. */
  function MakeRoom(c: Chunks): (r: Chunks)
    requires c.Ok()
    ensures r.Ok() && r.builtin == c.builtin && r.slot < Count
    ensures c.slot < Count ==> r == c
    ensures c.slot == Count ==> r.extra == [ZeroChunk()] + c.extra && r.slot == 0
    ensures PendingOf(r.Chain(), r.slot) == PendingOf(c.Chain(), c.slot)
  {
    if c.slot == Count then
      PushPending(c.Chain());
      assert ([ZeroChunk()] + c.extra) + [c.builtin] == [ZeroChunk()] + c.Chain();
      Chunks(c.builtin, [ZeroChunk()] + c.extra, 0)
    else c
  }

  /** `head->f[slot] = func; head->a[slot] = arg; slot++;` */
  function Append(c: Chunks, e: Entry): (r: Chunks)
    requires c.Ok() && c.slot < Count
    ensures r.Ok() && |r.extra| == |c.extra| && r.slot == c.slot + 1
    ensures c.extra == [] ==> r.extra == [] && r.builtin == c.builtin[c.slot := e]
    ensures c.extra != [] ==> r.builtin == c.builtin && r.extra == c.extra[0 := c.extra[0][c.slot := e]]
    ensures PendingOf(r.Chain(), r.slot) == [e] + PendingOf(c.Chain(), c.slot)
  {
    StorePending(c.Chain(), c.slot, e);
    if c.extra == [] then
      assert [c.builtin[c.slot := e]] == c.Chain()[0 := c.builtin[c.slot := e]];
      Chunks(c.builtin[c.slot := e], [], c.slot + 1)
    else
      var head := c.extra[0][c.slot := e];
      assert c.extra[0 := head] + [c.builtin] == c.Chain()[0 := head];
      Chunks(c.builtin, c.extra[0 := head], c.slot + 1)
  }

  /** A full head chunk runs whole, so a fresh empty chunk in front of it
      leaves the pending entries as they were. */
  lemma PushPending(chain: seq<seq<Entry>>)
    requires chain != [] && |chain[0]| == Count
    ensures PendingOf([ZeroChunk()] + chain, 0) == PendingOf(chain, Count)
  {
    assert chain[0][..Count] == chain[0];
    assert ([ZeroChunk()] + chain)[1..] == chain;
    assert [chain[0]] + chain[1..] == chain;
  }

  /** `while (slot-- > 0) { func = head->f[slot]; arg = head->a[slot]; func(arg); }`
      over one chunk, appending each call to `trace`. */
  method RunChunk(chunk: seq<Entry>, slot: nat, trace: seq<Entry>) returns (after: seq<Entry>)
    requires slot <= |chunk|
    ensures after == trace + Reverse(chunk[..slot])
  {
    after := trace;
    var s := slot;
    while s > 0
      invariant 0 <= s <= slot
      invariant after + Reverse(chunk[..s]) == trace + Reverse(chunk[..slot])
    {
      s := s - 1;
      assert chunk[..s + 1] == chunk[..s] + [chunk[s]];
      ReverseSnoc(chunk[..s], chunk[s]);
      after := after + [chunk[s]];
    }
  }

  /** The loop of `__funcs_on_exit` over the chain from `head`: each chunk
      is run from `slot - 1` down, and every later one from COUNT - 1 down. */
  method RunChain(chain: seq<seq<Entry>>, slot: nat, trace: seq<Entry>) returns (after: seq<Entry>)
    requires chain != [] ==> slot <= |chain[0]|
    requires Sized(chain)
    ensures after == trace + PendingOf(chain, slot)
  {
    after := trace;
    var rest := chain;
    var s: nat := slot;
    while rest != []
      invariant Sized(rest)
      invariant rest != [] ==> s <= |rest[0]|
      invariant after + PendingOf(rest, s) == trace + PendingOf(chain, slot)
      decreases |rest|
    {
      PendingStep(rest, s);
      ghost var done := Reverse(rest[0][..s]);
      ghost var later := PendingOf(rest[1..], Count);
      ghost var before := after;
      after := RunChunk(rest[0], s, after);
      AppendAssoc(before, done, later);
      rest := rest[1..];
      s := Count;
    }
  }

  /** Running the head chunk leaves the next chunk as the head, full. */
  lemma PendingStep(chain: seq<seq<Entry>>, slot: nat)
    requires chain != [] && slot <= |chain[0]|
    requires Sized(chain)
    ensures PendingOf(chain, slot) == Reverse(chain[0][..slot]) + PendingOf(chain[1..], Count)
  {
    var rest := chain[1..];
    if rest != [] {
      assert rest[0] == chain[1];
      assert rest[0][..Count] == rest[0];
      assert [rest[0]] + rest[1..] == rest;
    }
  }

  /** The static state of the registry. `builtin` is the static chunk,
      `extra` the chunks from `calloc` in chain order, `headNull` says
      whether `head` is null; the chain from `head` is `extra` followed
      by `builtin`, since the static chunk is always the last. */
  class Registry {
    var builtin: seq<Entry>
    var extra: seq<seq<Entry>>
    var headNull: bool
    var slot: int
    /** The calls made by handlers run so far, in order. */
    var ran: seq<Entry>
    /** The handlers registered and not yet run, oldest first. */
    ghost var registered: seq<Entry>

    ghost predicate Valid()
      reads this
    {
      |builtin| == Count && Sized(extra) &&
      (headNull ==> extra == []) && 0 <= slot <= Count
    }

    /** The chunks reachable from `head`, head first. */
    function Chain(): (chain: seq<seq<Entry>>)
      reads this
      ensures headNull ==> chain == []
      ensures !headNull ==> chain != [] && chain[|chain| - 1] == builtin
    {
      if headNull then [] else extra + [builtin]
    }

    /** The entries the next `__funcs_on_exit` runs, in order. */
    function Pending(): seq<Entry>
      requires Valid()
      reads this
    {
      PendingOf(Chain(), slot)
    }

    /** The registry agrees with its history: when `head` is null the
        next registration starts over at slot 0 of the static chunk, and
        the pending entries are the registered ones, newest first. */
    ghost predicate Healthy()
      reads this
    {
      Valid() && (headNull ==> slot == 0) && Pending() == Reverse(registered)
    }

    /** The zero-initialised state at program start. */
    constructor ()
      ensures Healthy() && headNull && slot == 0 && builtin == ZeroChunk()
      ensures extra == [] && ran == [] && registered == []
    {
      builtin := ZeroChunk();
      extra := [];
      headNull := true;
      slot := 0;
      ran := [];
      registered := [];
    }

    /** `__cxa_atexit(func, arg, dso)`; `dso` is not used. `head` is set
        to the static chunk first, even when the call then fails. */
    method CxaAtExit(func: Func, arg: Arg, dso: Arg, callocOk: bool) returns (r: int)
      requires Valid()
      modifies this
      ensures Valid() && !headNull && ran == old(ran)
      ensures r == 0 || r == -1
      ensures r == -1 <==> old(slot) == Count && !callocOk
      ensures r == -1 ==> unchanged(this`builtin, this`extra, this`slot, this`registered)
      ensures r == 0 ==> Chunks(builtin, extra, slot) == Append(MakeRoom(Chunks(old(builtin), old(extra), old(slot))), Entry(func, arg))
      ensures r == 0 && old(slot) < Count ==> |extra| == |old(extra)| && slot == old(slot) + 1
      ensures r == 0 && old(slot) == Count ==> |extra| == |old(extra)| + 1 && slot == 1
      ensures r == 0 ==> registered == old(registered) + [Entry(func, arg)]
      ensures r == 0 ==> Pending() == [Entry(func, arg)] + PendingOf(old(extra) + [old(builtin)], old(slot))
      ensures old(Healthy()) ==> Healthy()
    {
      ghost var wasHealthy := Healthy();
      ghost var before := PendingOf(extra + [builtin], slot);
      assert wasHealthy ==> before == Reverse(registered);
      // defer initialisation of head
      headNull := false;
      if slot == Count && !callocOk {
        return -1;
      }
      assert Pending() == before;
      Insert(Entry(func, arg));
      ReverseSnoc(old(registered), Entry(func, arg));
      r := 0;
    }

    /** The successful part of `__cxa_atexit` once `head` is set. */
    method Insert(e: Entry)
      requires Valid() && !headNull
      modifies this`builtin, this`extra, this`slot, this`registered
      ensures Valid() && Chunks(builtin, extra, slot) == Append(MakeRoom(old(Chunks(builtin, extra, slot))), e)
      ensures registered == old(registered) + [e]
      ensures Pending() == [e] + old(Pending())
    {
      var next := Append(MakeRoom(Chunks(builtin, extra, slot)), e);
      builtin, extra, slot := next.builtin, next.extra, next.slot;
      registered := registered + [e];
    }

    /** `atexit(func)`: registers `call` with `func` as its argument. */
    method AtExit(func: Func, callocOk: bool) returns (r: int)
      requires Valid()
      modifies this
      ensures Valid() && ran == old(ran)
      ensures r == 0 || r == -1
      ensures r == -1 <==> old(slot) == Count && !callocOk
      ensures r == -1 ==> unchanged(this`builtin, this`extra, this`slot, this`registered)
      ensures r == 0 ==> registered == old(registered) + [Entry(CallTrampoline, FuncArg(func))]
      ensures r == 0 ==> Pending() == [Entry(CallTrampoline, FuncArg(func))] + PendingOf(old(extra) + [old(builtin)], old(slot))
      ensures old(Healthy()) ==> Healthy()
    {
      r := CxaAtExit(CallTrampoline, FuncArg(func), NullArg, callocOk);
    }

    /** `__funcs_on_exit` without its end: runs the chain and leaves
        `head` null and `slot` as the loop's last step sets it. */
    method RunHandlers()
      requires Valid()
      modifies this`ran, this`extra, this`headNull, this`slot, this`registered
      ensures Valid() && headNull && extra == [] && builtin == old(builtin)
      ensures ran == old(ran) + old(Pending()) && registered == []
      ensures old(headNull) ==> slot == old(slot)
      ensures !old(headNull) ==> slot == Count
    {
      ghost var pending := Pending();
      ran := RunChain(Chain(), slot, ran);
      assert ran == old(ran) + pending;
      if !headNull {
        // the failing test `slot-- > 0` leaves -1 and the loop step sets COUNT
        slot := Count;
      }
      headNull, extra := true, [];
      registered := [];
    }

    /** `__funcs_on_exit` as written: it leaves `head` null but `slot` at
        COUNT, so the next registration finds the static chunk "full",
        pushes a new chunk in front of it, and the static chunk's old
        entries become pending again. */
    method FuncsOnExitAsWritten()
      requires Valid()
      modifies this`ran, this`extra, this`headNull, this`slot, this`registered
      ensures Valid() && headNull && extra == [] && builtin == old(builtin)
      ensures ran == old(ran) + old(Pending()) && registered == []
      ensures old(headNull) ==> slot == old(slot)
      ensures !old(headNull) ==> slot == Count
      ensures old(Healthy()) ==> ran == old(ran) + Reverse(old(registered))
    {
      RunHandlers();
    }

    /** `__funcs_on_exit` with `slot` reset to 0 once the chain is done:
        every registered handler runs once, newest first, and the registry
        is back to its start state apart from the static chunk's stale
        contents, which are never run again. */
    method FuncsOnExit()
      requires Healthy()
      modifies this`ran, this`extra, this`headNull, this`slot, this`registered
      ensures Healthy() && headNull && slot == 0 && extra == [] && builtin == old(builtin)
      ensures ran == old(ran) + Reverse(old(registered)) && registered == []
    {
      RunHandlers();
      slot := 0;
    }

    /** `__cxa_finalize(dso)` in the Starboard build (the body is empty
        otherwise): runs every handler, whatever `dso` is, through
        `__funcs_on_exit` as written. */
    method CxaFinalize(dso: Arg)
      requires Valid()
      modifies this`ran, this`extra, this`headNull, this`slot, this`registered
      ensures Valid() && headNull && extra == [] && builtin == old(builtin)
      ensures ran == old(ran) + old(Pending()) && registered == []
      ensures old(headNull) ==> slot == old(slot)
      ensures !old(headNull) ==> slot == Count
      ensures old(Healthy()) ==> ran == old(ran) + Reverse(old(registered))
    {
      FuncsOnExitAsWritten();
    }

    /** `__cxa_finalize(dso)` over the corrected `__funcs_on_exit`. */
    method CxaFinalizeCorrected(dso: Arg)
      requires Healthy()
      modifies this`ran, this`extra, this`headNull, this`slot, this`registered
      ensures Healthy() && headNull && slot == 0 && extra == [] && builtin == old(builtin)
      ensures ran == old(ran) + Reverse(old(registered)) && registered == []
    {
      FuncsOnExit();
    }
  }

  /** Registering handler 1, running the handlers, registering handler 2
      and running them again: as written, the second run calls handler 2
      and then the static chunk's 32 slots again, handler 1 a second time
      and 31 null function pointers. */
  method StaleHandlersAsWritten() returns (ran: seq<Entry>)
    ensures |ran| == 34
    ensures ran[0] == Entry(Fn(1), NullArg) && ran[1] == Entry(Fn(2), NullArg)
    ensures ran[33] == Entry(Fn(1), NullArg)
    ensures forall i :: 2 <= i < 33 ==> ran[i] == Entry(NullFunc, NullArg)
  {
    var e1, e2 := Entry(Fn(1), NullArg), Entry(Fn(2), NullArg);
    var reg := new Registry();
    var r1 := reg.CxaAtExit(Fn(1), NullArg, NullArg, true);
    assert reg.builtin == ZeroChunk()[0 := e1] && reg.extra == [] && reg.slot == 1;
    assert reg.Pending() == [e1] by {
      assert ZeroChunk()[0 := e1][..1] == [e1];
    }
    reg.FuncsOnExitAsWritten();
    var r2 := reg.CxaAtExit(Fn(2), NullArg, NullArg, true);
    reg.FuncsOnExitAsWritten();
    ran := reg.ran;
    StaleRun(e1, e2);
  }

  /** The trace of the as-written sequence above, on values. */
  lemma StaleRun(e1: Entry, e2: Entry)
    ensures var ran := [e1] + ([e2] + PendingOf([ZeroChunk()[0 := e1]], Count));
            |ran| == 34 && ran[0] == e1 && ran[1] == e2 && ran[33] == e1 &&
            forall i :: 2 <= i < 33 ==> ran[i] == Entry(NullFunc, NullArg)
  {
    var stale := ZeroChunk()[0 := e1];
    assert stale[..Count] == stale;
    var rev := Reverse(stale);
    assert PendingOf([stale], Count) == rev;
    assert |rev| == 32 && rev[31] == e1;
    assert forall i :: 0 <= i < 31 ==> rev[i] == Entry(NullFunc, NullArg);
    var ran := [e1] + ([e2] + rev);
    forall i | 2 <= i < 33 ensures ran[i] == Entry(NullFunc, NullArg) {
      assert ran[i] == rev[i - 2];
    }
  }

  /** The same sequence with the corrected `__funcs_on_exit`: each handler
      runs once. */
  method StaleHandlersCorrected() returns (ran: seq<Entry>)
    ensures ran == [Entry(Fn(1), NullArg), Entry(Fn(2), NullArg)]
  {
    var reg := new Registry();
    var r1 := reg.CxaAtExit(Fn(1), NullArg, NullArg, true);
    reg.FuncsOnExit();
    var r2 := reg.CxaAtExit(Fn(2), NullArg, NullArg, true);
    reg.FuncsOnExit();
    ran := reg.ran;
  }

  /** A handler registered with `atexit` is called with no arguments. */
  lemma AtExitCallsWithoutArgument(f: Func)
    ensures Invoke(Entry(CallTrampoline, FuncArg(f))) == NoArg(f)
  {
  }

  /** Running `__funcs_on_exit` as written twice in a row: `head` is null
      after the first run, so the second calls nothing. */
  method RunTwice(reg: Registry)
    requires reg.Valid()
    modifies reg
    ensures reg.ran == old(reg.ran) + old(reg.Pending())
    ensures reg.Valid() && reg.headNull && reg.Pending() == []
  {
    reg.FuncsOnExitAsWritten();
    assert reg.Pending() == [];
    reg.FuncsOnExitAsWritten();
  }

  /** The same with the corrected function. */
  method RunTwiceCorrected(reg: Registry)
    requires reg.Healthy()
    modifies reg
    ensures reg.ran == old(reg.ran) + Reverse(old(reg.registered))
    ensures reg.Healthy() && reg.Pending() == []
  {
    reg.FuncsOnExit();
    assert reg.Pending() == [];
    reg.FuncsOnExit();
  }
}
