/**
  The three diagnostic shell commands `mem`, `threads` and `test`. Only their
  control flow is modelled: each refuses any argument with a one-line usage
  message before touching the kernel; otherwise `mem` reports the heap,
  `threads` walks the thread registry and `test` spawns the self-test thread
  and waits for it, or reports that it could not be created. What the kernel
  reports is an input, and lines are kept as structured values rather than
  formatted text.
 */
module Commands {
  import opened Kernel

  datatype Command = Mem | Threads | Test

  /** One registry entry as the `threads` command prints it. `state` indexes
      the kernel's table of state names. `refs` is the 8-bit reference count. */
  datatype ThreadInfo = ThreadInfo(addr: nat, stack: nat, prio: nat, refs: nat, state: nat)

  /** What the heap queries of `mem` return. */
  datatype HeapReport = HeapReport(coreFree: nat, fragments: nat, heapFree: nat)

  /** One output line. */
  datatype Line =
    | Usage(cmd: Command)                 // "Usage: mem", "Usage: threads" or "Usage: test"
    | CoreFree(bytes: nat)                // "core free memory : <n> bytes"
    | HeapFragments(count: nat)           // "heap fragments   : <n>"
    | HeapFree(bytes: nat)                // "heap free total  : <n> bytes"
    | ThreadHeader                        // "    addr    stack prio refs     state"
    | ThreadRow(addr: nat, stack: nat, prio: nat, refs: nat, state: nat)
    | OutOfMemory                         // "out of memory"

  /** A kernel service the command uses, in the order used. `RegistryWalk`
      stands for the whole walk from the first registry entry through the
      next ones; `SpawnTest` for reading the caller's priority and creating
      the self-test thread at that same priority. */
  datatype KernelCall = HeapStatus | CoreStatus | RegistryWalk | SpawnTest | Wait(h: Handle)

  datatype Outcome = Outcome(lines: seq<Line>, calls: seq<KernelCall>)

  /** The command blocked waiting for a thread. */
  predicate Waits(o: Outcome)
  {
    exists k :: 0 <= k < |o.calls| && o.calls[k].Wait?
  }

  /** What a command does when given arguments: print its usage line, nothing else. */
  function Rejected(c: Command): Outcome
  {
    Outcome([Usage(c)], [])
  }

  const U32: nat := 0x1_0000_0000

  /** The reference count column: the 8-bit count minus one, computed in `int`
      and converted to a 32-bit unsigned value. The registry walk holds one
      reference of its own, which the subtraction hides. */
  function ShownRefs(refs: nat): (r: nat)
    requires refs < 256
    ensures r < U32
    ensures refs >= 1 ==> r + 1 == refs
    ensures refs == 0 ==> r == U32 - 1
  {
    (refs - 1) % U32
  }

  /** The row printed for one registry entry. */
  function Row(t: ThreadInfo): Line
    requires t.refs < 256
  {
    ThreadRow(t.addr, t.stack, t.prio, ShownRefs(t.refs), t.state)
  }

  predicate ValidRegistry(registry: seq<ThreadInfo>)
  {
    forall i :: 0 <= i < |registry| ==> registry[i].refs < 256
  }

  function MemCommand(argc: int, heap: HeapReport): (o: Outcome)
    ensures argc > 0 <==> o == Rejected(Mem)
    ensures argc <= 0 ==> o.calls == [HeapStatus, CoreStatus]
    ensures argc <= 0 ==> o.lines == [CoreFree(heap.coreFree), HeapFragments(heap.fragments), HeapFree(heap.heapFree)]
  {
    if argc > 0 then Rejected(Mem)
    else Outcome([CoreFree(heap.coreFree), HeapFragments(heap.fragments), HeapFree(heap.heapFree)],
                 [HeapStatus, CoreStatus])
  }

  /** The `threads` command. Without arguments it prints a header and then,
      walking the registry from its first entry with a do-while loop, one row
      per thread; the registry is never empty then, since the shell thread
      running the command is registered. */
  method ThreadsCommand(argc: int, registry: seq<ThreadInfo>) returns (o: Outcome)
    requires argc <= 0 ==> |registry| > 0
    requires ValidRegistry(registry)
    ensures argc > 0 <==> o == Rejected(Threads)
    ensures argc <= 0 ==> o.calls == [RegistryWalk]
    ensures argc <= 0 ==> |o.lines| == |registry| + 1 && o.lines[0] == ThreadHeader
    ensures argc <= 0 ==> forall i :: 0 <= i < |registry| ==> o.lines[i + 1] == Row(registry[i])
  {
    if argc > 0 {
      return Rejected(Threads);
    }
    var lines := [ThreadHeader];
    var i := 0;
    while true
      invariant 0 <= i < |registry|
      invariant |lines| == i + 1 && lines[0] == ThreadHeader
      invariant forall k :: 0 <= k < i ==> lines[k + 1] == Row(registry[k])
      decreases |registry| - i
    {
      lines := lines + [Row(registry[i])];
      if i + 1 == |registry| {
        break;
      }
      i := i + 1;
    }
    o := Outcome(lines, [RegistryWalk]);
  }

  /** The `test` command, given what creating the self-test thread returns. */
  function TestCommand(argc: int, spawned: Option<Handle>): (o: Outcome)
    ensures argc > 0 <==> o == Rejected(Test)
    ensures o.lines == [OutOfMemory] <==> argc <= 0 && spawned.None?
    ensures argc <= 0 ==> |o.calls| > 0 && o.calls[0] == SpawnTest
    ensures Waits(o) <==> argc <= 0 && spawned.Some?
    ensures argc <= 0 && spawned.Some? ==> o.calls == [SpawnTest, Wait(spawned.value)] && o.lines == []
  {
    if argc > 0 then Rejected(Test)
    else match spawned
      case None => Outcome([OutOfMemory], [SpawnTest])
      case Some(h) =>
        var o := Outcome([], [SpawnTest, Wait(h)]);
        assert o.calls[1].Wait?;
        o
  }
}
