/**
 The poll table: one entry per descriptor with the events it waits for. Entries are scanned
 and edited in place; removal of an entry passes the entry being overwritten as the value to remove.
 */
module Polls {
  import opened Common

  datatype Entry = Entry(fd: int, input: bool, output: bool)

  datatype Interest = Interest(input: bool, output: bool)

  ghost predicate DistinctFds(s: seq<Entry>) {
    forall a, b :: 0 <= a < b < |s| ==> s[a].fd != s[b].fd
  }

  /** Index of the first entry of a descriptor, or the length of the table. */
  function IndexOf(s: seq<Entry>, fd: int): (i: nat)
    ensures i <= |s| && (i < |s| ==> s[i].fd == fd)
    ensures forall k :: 0 <= k < i ==> s[k].fd != fd
  {
    if s == [] || s[0].fd == fd then 0 else 1 + IndexOf(s[1..], fd)
  }

  /** What the table waits for on one descriptor. */
  function Lookup(s: seq<Entry>, fd: int): Option<Interest> {
    var i := IndexOf(s, fd);
    if i < |s| then Some(Interest(s[i].input, s[i].output)) else None
  }

  function Add(s: seq<Entry>, fd: int): seq<Entry> {
    var i := IndexOf(s, fd);
    if i < |s| then s[i := s[i].(input := true)] else s + [Entry(fd, true, false)]
  }

  function AddWrite(s: seq<Entry>, fd: int): seq<Entry> {
    var i := IndexOf(s, fd);
    if i < |s| then s[i := s[i].(output := true)] else s + [Entry(fd, false, true)]
  }

  /** Every entry of the descriptor goes. */
  function Remove(s: seq<Entry>, fd: int): seq<Entry> {
    if s == [] then []
    else (if s[0].fd == fd then [] else [s[0]]) + Remove(s[1..], fd)
  }

  function RemoveWrite(s: seq<Entry>, fd: int): seq<Entry> {
    var i := IndexOf(s, fd);
    if i == |s| then s
    else if s[i].input then s[i := s[i].(output := false)]
    else Erase(s, i)
  }

  lemma AddLookup(s: seq<Entry>, fd: int, g: int)
    requires DistinctFds(s)
    ensures DistinctFds(Add(s, fd))
    ensures Lookup(Add(s, fd), g) ==
      if g != fd then Lookup(s, g)
      else Some(Interest(true, Lookup(s, fd).Some? && Lookup(s, fd).value.output))
  {
    var r := Add(s, fd);
    SameIndex(s, r, fd, g);
  }

  lemma AddWriteLookup(s: seq<Entry>, fd: int, g: int)
    requires DistinctFds(s)
    ensures DistinctFds(AddWrite(s, fd))
    ensures Lookup(AddWrite(s, fd), g) ==
      if g != fd then Lookup(s, g)
      else Some(Interest(Lookup(s, fd).Some? && Lookup(s, fd).value.input, true))
  {
    var r := AddWrite(s, fd);
    SameIndex(s, r, fd, g);
  }

  /** A table edited only at the entry of `fd`, or extended by one for it. */
  lemma SameIndex(s: seq<Entry>, r: seq<Entry>, fd: int, g: int)
    requires DistinctFds(s)
    requires var i := IndexOf(s, fd);
      if i < |s| then |r| == |s| && r[i].fd == fd && forall k :: 0 <= k < |s| && k != i ==> r[k] == s[k]
      else |r| == |s| + 1 && r[..|s|] == s && r[|s|].fd == fd
    ensures DistinctFds(r) && IndexOf(r, fd) == IndexOf(s, fd)
    ensures g != fd ==> (IndexOf(s, g) < |s| ==> IndexOf(r, g) == IndexOf(s, g)) && (IndexOf(s, g) == |s| ==>
      IndexOf(r, g) == |r|)
  {
    var i := IndexOf(s, fd);
    assert i == |s| ==> forall k :: 0 <= k < |s| ==> r[k] == r[..|s|][k];
  }

  function Erase(s: seq<Entry>, i: nat): seq<Entry>
    requires i < |s|
  {
    s[..i] + s[i + 1..]
  }

  lemma EraseLookup(s: seq<Entry>, i: nat, g: int)
    requires DistinctFds(s) && i < |s|
    ensures DistinctFds(Erase(s, i))
    ensures Lookup(Erase(s, i), g) == if g != s[i].fd then Lookup(s, g) else None
  {
    hide IndexOf;
    var r := Erase(s, i);
    assert forall k :: 0 <= k < |r| ==> r[k] == s[if k < i then k else k + 1];
    var j := IndexOf(s, g);
    if j < |s| && j != i {
      assert r[if j < i then j else j - 1].fd == g;
    }
  }

  lemma RemoveWriteLookup(s: seq<Entry>, fd: int, g: int)
    requires DistinctFds(s)
    ensures DistinctFds(RemoveWrite(s, fd))
    ensures Lookup(RemoveWrite(s, fd), g) ==
      if g != fd then Lookup(s, g)
      else if Lookup(s, fd).Some? && Lookup(s, fd).value.input then Some(Interest(true, false))
      else None
  {
    hide IndexOf;
    var i := IndexOf(s, fd);
    if i < |s| && s[i].input {
      SameIndex(s, RemoveWrite(s, fd), fd, g);
    } else if i < |s| {
      EraseLookup(s, i, g);
    }
  }

  lemma {:induction false} RemoveNone(s: seq<Entry>, fd: int)
    requires forall k :: 0 <= k < |s| ==> s[k].fd != fd
    ensures Remove(s, fd) == s
  {
    if s == [] {
    } else {
      RemoveNone(s[1..], fd);
    }
  }

  lemma SkipFirst(s: seq<Entry>, fd: int)
    requires DistinctFds(s) && s != []
    ensures DistinctFds(s[1..])
    ensures s[0].fd != fd ==> IndexOf(s, fd) == 1 + IndexOf(s[1..], fd) && Remove(s, fd) == [s[0]] + Remove(s[1..], fd)
    ensures s[0].fd == fd ==> IndexOf(s, fd) == 0 && Remove(s, fd) == s[1..]
  {
    if s[0].fd == fd {
      RemoveNone(s[1..], fd);
      assert [] + s[1..] == s[1..];
    }
  }

  lemma EraseTail(s: seq<Entry>, j: nat)
    requires s != []
    ensures s == [s[0]] + s[1..]
    ensures j < |s| - 1 ==> Erase(s, j + 1) == [s[0]] + Erase(s[1..], j)
  {
  }

  /** With distinct descriptors at most one entry goes, and the others keep their order. */
  lemma {:induction false} RemoveOrder(s: seq<Entry>, fd: int)
    requires DistinctFds(s)
    ensures var i := IndexOf(s, fd); Remove(s, fd) == if i < |s| then Erase(s, i) else s
  {
    if s == [] {
    } else {
      hide IndexOf, Remove, DistinctFds;
      var t := s[1..];
      SkipFirst(s, fd);
      if s[0].fd != fd {
        RemoveOrder(t, fd);
        EraseTail(s, IndexOf(t, fd));
      } else {
        assert Erase(s, 0) == t;
      }
    }
  }

  lemma RemoveLookup(s: seq<Entry>, fd: int, g: int)
    requires DistinctFds(s)
    ensures DistinctFds(Remove(s, fd))
    ensures Lookup(Remove(s, fd), g) == if g != fd then Lookup(s, g) else None
  {
    hide IndexOf, Remove;
    RemoveOrder(s, fd);
    var i := IndexOf(s, fd);
    if i < |s| {
      EraseLookup(s, i, g);
    }
  }

  // ---------- removal through a reference into the table ----------

  /**
   Shifts the entries that differ from `a[at]` to the front and returns how many there are. The value compared
   against is read from `a[at]` each time, although that cell is overwritten on the way.
   */
  method ShiftOut(a: array<Entry>, at: nat) returns (kept: nat)
    requires at < a.Length && DistinctFds(a[..])
    modifies a
    ensures kept == a.Length - 1 && a[..kept] == old(a[..at]) + old(a[at + 1..])
  {
    ghost var s := a[..];
    var i := 0;
    while a[i].fd != a[at].fd
      invariant i <= at && a[..] == s
      decreases at - i
    {
      i := i + 1;
    }
    assert s[i].fd == s[at].fd;
    assert i == at;
    kept := i;
    var j := i + 1;
    while j < a.Length
      invariant at < j <= a.Length && kept == j - 1
      invariant a[..kept] == s[..at] + s[at + 1..j]
      invariant a[kept..] == s[kept..] || (j > at + 1 && a[j..] == s[j..])
      invariant a[j..] == s[j..]
      invariant a[at].fd == s[if j == at + 1 then at else at + 1].fd
    {
      assert a[j] == a[j..][0] == s[j];
      if a[j].fd != a[at].fd {
        a[kept] := a[j];
        kept := kept + 1;
      }
      j := j + 1;
    }
    assert s[at + 1..j] == s[at + 1..];
  }

  /** One descriptor and whether its writer (or send queue) holds data. */
  datatype Stream = Stream(fd: int, pending: bool)

  function PrepareOne(s: seq<Entry>, stream: Stream): seq<Entry> {
    if stream.pending then AddWrite(s, stream.fd) else RemoveWrite(s, stream.fd)
  }

  /** `prepare_write`: visits every stream once. */
  function Prepare(s: seq<Entry>, streams: seq<Stream>): seq<Entry>
    decreases |streams|
  {
    if streams == [] then s
    else PrepareOne(Prepare(s, streams[..|streams| - 1]), streams[|streams| - 1])
  }

  class Poll {
    var fds: seq<Entry>

    constructor ()
      ensures fds == []
    {
      fds := [];
    }

    method Find(fd: int) returns (i: nat)
      ensures i == IndexOf(fds, fd)
    {
      i := 0;
      while i < |fds| && fds[i].fd != fd
        invariant i <= |fds| && IndexOf(fds, fd) == i + IndexOf(fds[i..], fd)
      {
        assert fds[i..][1..] == fds[i + 1..];
        i := i + 1;
      }
    }

    method AddRead(fd: int)
      modifies this
      ensures fds == Add(old(fds), fd)
    {
      var i := Find(fd);
      fds := if i < |fds| then fds[i := fds[i].(input := true)] else fds + [Entry(fd, true, false)];
    }

    method AddOutput(fd: int)
      modifies this
      ensures fds == AddWrite(old(fds), fd)
    {
      var i := Find(fd);
      fds := if i < |fds| then fds[i := fds[i].(output := true)] else fds + [Entry(fd, false, true)];
    }

    /** Clears the output bit; an entry that waits for nothing is erased through `ShiftOut`. */
    method RemoveOutput(fd: int)
      requires DistinctFds(fds)
      modifies this
      ensures fds == RemoveWrite(old(fds), fd)
    {
      var i := Find(fd);
      if i < |fds| {
        fds := fds[i := fds[i].(output := false)];
        if !fds[i].input {
          var a := new Entry[|fds|](k requires 0 <= k < |fds| reads this => fds[k]);
          assert a[..] == fds;
          var kept := ShiftOut(a, i);
          fds := a[..kept];
        }
      }
    }

    /** Keeps the entries of all other descriptors. */
    method RemoveFd(fd: int)
      modifies this
      ensures fds == Remove(old(fds), fd)
    {
      var kept: seq<Entry> := [];
      var i := 0;
      while i < |fds|
        invariant i <= |fds| && fds == old(fds) && Remove(fds, fd) == kept + Remove(fds[i..], fd)
      {
        assert fds[i..][1..] == fds[i + 1..];
        if fds[i].fd != fd {
          kept := kept + [fds[i]];
        }
        i := i + 1;
      }
      fds := kept;
    }

    /** Sets or clears the output bit of every stream in turn. */
    method PrepareWrite(streams: seq<Stream>)
      requires DistinctFds(fds)
      modifies this
      ensures fds == Prepare(old(fds), streams)
    {
      for k := 0 to |streams|
        invariant DistinctFds(fds) && fds == Prepare(old(fds), streams[..k])
      {
        PrepareOneLookup(fds, streams[k], 0);
        assert streams[..k + 1][..k] == streams[..k];
        if streams[k].pending {
          AddOutput(streams[k].fd);
        } else {
          RemoveOutput(streams[k].fd);
        }
      }
      assert streams[..|streams|] == streams;
    }
  }

  // ---------- agreement with the writers ----------

  ghost predicate DistinctStreams(streams: seq<Stream>) {
    forall a, b :: 0 <= a < b < |streams| ==> streams[a].fd != streams[b].fd
  }

  /** The effect of one visit on what the table waits for. */
  function Visited(before: Option<Interest>, pending: bool): Option<Interest> {
    var input := before.Some? && before.value.input;
    if pending then Some(Interest(input, true))
    else if input then Some(Interest(true, false))
    else None
  }

  lemma PrepareOneLookup(s: seq<Entry>, stream: Stream, g: int)
    requires DistinctFds(s)
    ensures DistinctFds(PrepareOne(s, stream))
    ensures Lookup(PrepareOne(s, stream), g) ==
      if g == stream.fd then Visited(Lookup(s, g), stream.pending) else Lookup(s, g)
  {
    AddWriteLookup(s, stream.fd, g);
    RemoveWriteLookup(s, stream.fd, g);
  }

  /** After `prepare_write` each visited descriptor agrees with its writer; all others are as before. */
  lemma {:induction false} PrepareLookup(s: seq<Entry>, streams: seq<Stream>, g: int)
    requires DistinctFds(s) && DistinctStreams(streams)
    ensures DistinctFds(Prepare(s, streams))
    ensures forall k :: 0 <= k < |streams| && streams[k].fd == g ==>
      Lookup(Prepare(s, streams), g) == Visited(Lookup(s, g), streams[k].pending)
    ensures (forall k :: 0 <= k < |streams| ==> streams[k].fd != g) ==> Lookup(Prepare(s, streams), g) == Lookup(s, g)
    decreases |streams|
  {
    if streams == [] {
    } else {
      var n := |streams| - 1;
      PrepareLookup(s, streams[..n], g);
      PrepareOneLookup(Prepare(s, streams[..n]), streams[n], g);
      assert forall k :: 0 <= k < n ==> streams[..n][k] == streams[k];
    }
  }

  // ---------- runs ----------

  /** The table, and the live streams with whether each writer holds data. */
  datatype State = State(table: seq<Entry>, live: map<int, bool>)

  datatype Label =
    | Accepted(newFd: int)
    | AcceptedThenClosed(badFd: int)
    | Closed(goneFd: int)
    | Queued(fullFd: int)
    | Flushed(emptyFd: int)
    | PrepareWrite(order: seq<Stream>)

  /** The operating system never hands out a descriptor that is in use; `prepare_write` visits each live stream once. */
  ghost predicate Enabled(s: State, l: Label) {
    match l
    case Accepted(fd) => fd !in s.live
    case AcceptedThenClosed(fd) => fd !in s.live
    case Closed(fd) => fd in s.live
    case Queued(fd) => fd in s.live
    case Flushed(fd) => fd in s.live
    case PrepareWrite(order) =>
      && DistinctStreams(order)
      && (forall k :: 0 <= k < |order| ==> order[k].fd in s.live && order[k].pending == s.live[order[k].fd])
      && forall fd :: fd in s.live ==> exists k :: 0 <= k < |order| && order[k].fd == fd
  }

  function Apply(s: State, l: Label): State {
    match l
    case Accepted(fd) => State(Add(s.table, fd), s.live[fd := false])
    // a stream that cannot be made non-blocking is closed but its entry stays
    case AcceptedThenClosed(fd) => s.(table := Add(s.table, fd))
    case Closed(fd) => State(Remove(s.table, fd), s.live - {fd})
    case Queued(fd) => s.(live := s.live[fd := true])
    case Flushed(fd) => s.(live := s.live[fd := false])
    case PrepareWrite(order) => s.(table := Prepare(s.table, order))
  }

  /** Descriptors are distinct and every live stream is watched for input. */
  ghost predicate Inv(s: State) {
    && DistinctFds(s.table)
    && forall fd :: fd in s.live ==> Watched(s, fd)
  }

  ghost predicate Watched(s: State, fd: int) {
    Lookup(s.table, fd).Some? && Lookup(s.table, fd).value.input
  }

  lemma StepInv(s: State, l: Label)
    requires Inv(s) && Enabled(s, l)
    ensures Inv(Apply(s, l))
  {
    hide Lookup, Add, Remove, Prepare;
    var r := Apply(s, l);
    match l {
      case Accepted(fd) =>
        AddLookup(s.table, fd, fd);
        forall g | g in r.live ensures Watched(r, g) { AddLookup(s.table, fd, g); assert g != fd ==> Watched(s, g); }
      case AcceptedThenClosed(fd) =>
        AddLookup(s.table, fd, fd);
        forall g | g in r.live ensures Watched(r, g) { AddLookup(s.table, fd, g); assert Watched(s, g); }
      case Closed(fd) =>
        RemoveLookup(s.table, fd, fd);
        forall g | g in r.live ensures Watched(r, g) { RemoveLookup(s.table, fd, g); assert Watched(s, g); }
      case Queued(fd) =>
        forall g | g in r.live ensures Watched(r, g) { assert Watched(s, g); }
      case Flushed(fd) =>
        forall g | g in r.live ensures Watched(r, g) { assert Watched(s, g); }
      case PrepareWrite(order) =>
        PrepareLookup(s.table, order, 0);
        forall g | g in r.live ensures Watched(r, g) { PrepareLookup(s.table, order, g); assert Watched(s, g); }
    }
  }

  ghost predicate IsRun(s: State, ls: seq<Label>)
    decreases |ls|
  {
    ls == [] || (Enabled(s, ls[0]) && IsRun(Apply(s, ls[0]), ls[1..]))
  }

  ghost function After(s: State, ls: seq<Label>): State
    decreases |ls|
  {
    if ls == [] then s else After(Apply(s, ls[0]), ls[1..])
  }

  lemma {:induction false} RunInv(s: State, ls: seq<Label>)
    requires Inv(s) && IsRun(s, ls)
    ensures Inv(After(s, ls))
    decreases |ls|
  {
    hide Inv, Enabled, Apply;
    if ls == [] {
    } else {
      StepInv(s, ls[0]);
      RunInv(Apply(s, ls[0]), ls[1..]);
    }
  }

  /**
   After any run that ends by preparing, a live stream waits for input, and for output exactly when its writer
   holds data.
   */
  lemma AgreesWithWriters(ls: seq<Label>, order: seq<Stream>, fd: int)
    requires var s := After(State([], map[]), ls);
      IsRun(State([], map[]), ls) && Enabled(s, PrepareWrite(order)) && fd in s.live
    ensures var s := After(State([], map[]), ls);
      Lookup(Apply(s, PrepareWrite(order)).table, fd) == Some(Interest(true, s.live[fd]))
  {
    RunInv(State([], map[]), ls);
    var s := After(State([], map[]), ls);
    assert Watched(s, fd);
    PrepareLookup(s.table, order, fd);
    var k :| 0 <= k < |order| && order[k].fd == fd;
  }
}
