/** How mysqlbinlog collects the blocks of LOAD DATA statements in temporary files. */
module LoadFiles {
  import opened Wrappers

  type Byte = bv8

  /** The events of a LOAD DATA statement; ignored ones belong to a database that is not wanted. */
  datatype Event =
    | CreateFile(id: nat, block: seq<Byte>, ignored: bool)
    | BeginLoad(id: nat, block: seq<Byte>)
    | AppendBlock(id: nat, block: seq<Byte>)
    | ExecLoad(id: nat)
    | ExecLoadQuery(id: nat, ignored: bool)

  /** An event, and whether its temporary file could be made. */
  datatype Done = Done(event: Event, ok: bool)

  /** A statement whose execute event is to come: how it began, and its data so far. */
  datatype Pending = Pending(created: bool, data: seq<Byte>)

  // --- what the events of a log mean ---

  function Next(p: Option<Pending>, d: Done): Option<Pending> {
    match d.event
    case CreateFile(_, block, ignored) => if d.ok && !ignored then Some(Pending(true, block)) else p
    case BeginLoad(_, block) => if d.ok then Some(Pending(false, block)) else p
    case AppendBlock(_, block) => if p.Some? then Some(p.value.(data := p.value.data + block)) else None
    case ExecLoad(_) => if p.Some? && p.value.created then None else p
    case ExecLoadQuery(_, _) => if p.Some? && !p.value.created then None else p
  }

  ghost function Live(h: seq<Done>, id: nat): Option<Pending> {
    if h == [] then None
    else
      var n := |h| - 1;
      if h[n].event.id == id then Next(Live(h[..n], id), h[n]) else Live(h[..n], id)
  }

  /** Whether the event executes the pending statement and is printed. */
  predicate Executes(p: Option<Pending>, e: Event) {
    && p.Some?
    && match e
       case ExecLoad(_) => p.value.created
       case ExecLoadQuery(_, ignored) => !p.value.created && !ignored
       case _ => false
  }

  /** The data of all printed statements. */
  ghost function Sent(h: seq<Done>): seq<seq<Byte>> {
    if h == [] then []
    else
      var n := |h| - 1;
      var p := Live(h[..n], h[n].event.id);
      Sent(h[..n]) + if Executes(p, h[n].event) then [p.value.data] else []
  }

  lemma LiveMore(h: seq<Done>, d: Done, id: nat)
    ensures Live(h + [d], id) == if d.event.id == id then Next(Live(h, id), d) else Live(h, id)
  {
    assert (h + [d])[..|h|] == h;
  }

  lemma AllLiveMore(h: seq<Done>, d: Done)
    ensures forall id: nat :: Live(h + [d], id) == if d.event.id == id then Next(Live(h, id), d) else Live(h, id)
  {
    forall id: nat
      ensures Live(h + [d], id) == if d.event.id == id then Next(Live(h, id), d) else Live(h, id)
    {
      LiveMore(h, d, id);
    }
  }

  lemma SentMore(h: seq<Done>, d: Done)
    ensures var p := Live(h, d.event.id); Sent(h + [d]) == Sent(h) + if Executes(p, d.event) then [p.value.data] else []
  {
    assert (h + [d])[..|h|] == h;
  }

  /** The blocks appended for an id. */
  ghost function Blocks(h: seq<Done>, id: nat): seq<Byte> {
    if h == [] then []
    else
      var e := h[|h| - 1].event;
      Blocks(h[..|h| - 1], id) + if e.AppendBlock? && e.id == id then e.block else []
  }

  /** The event begins a statement that is wanted. */
  predicate IsFirst(e: Event) {
    (e.CreateFile? && !e.ignored) || e.BeginLoad?
  }

  predicate Starts(d: Done) {
    IsFirst(d.event) && d.ok
  }

  /** The execute event for a statement that began with the first one. */
  predicate Ends(first: Event, e: Event) {
    if first.CreateFile? then e.ExecLoad? else e.ExecLoadQuery?
  }

  /** The events leave a statement that began with the first one pending. */
  ghost predicate Spares(first: Event, h: seq<Done>) {
    forall m :: 0 <= m < |h| && h[m].event.id == first.id ==> !Starts(h[m]) && !Ends(first, h[m].event)
  }

  /**
   Between its first and its execute event a statement collects its own blocks,
   in order, whatever else is in the log.
   */
  lemma {:induction false} OwnBlocks(before: seq<Done>, first: Done, between: seq<Done>)
    requires Starts(first) && Spares(first.event, between)
    ensures var id := first.event.id;
            Live(before + [first] + between, id) ==
            Some(Pending(first.event.CreateFile?, first.event.block + Blocks(between, id)))
  {
    var id, h := first.event.id, before + [first];
    if between == [] {
      LiveMore(before, first, id);
      assert h + between == h && first.event.block + Blocks([], id) == first.event.block;
    } else {
      var n := |between| - 1;
      OwnBlocks(before, first, between[..n]);
      LiveMore(h + between[..n], between[n], id);
      var e, data := between[n].event, first.event.block;
      assert e.AppendBlock? ==>
          data + Blocks(between[..n], id) + e.block == data + (Blocks(between[..n], id) + e.block);
      assert data + (Blocks(between[..n], id) + []) == data + Blocks(between[..n], id);
      assert h + between == h + between[..n] + [between[n]];
    }
  }

  // --- the processor ---

  /** Both are null pointers in an unused record. */
  datatype Record = Record(fname: Option<string>, event: Option<Event>)

  const UNUSED := Record(None, None)

  type Files = map<string, seq<Byte>>

  /** The record is that of the pending statement, and the file holds its data. */
  ghost predicate Keeps(rec: Record, p: Option<Pending>, files: Files) {
    match p
    case None => rec == UNUSED
    case Some(load) =>
      && rec.fname.Some? && rec.event.Some? == load.created
      && rec.fname.value in files && files[rec.fname.value] == load.data
  }

  function At(names: seq<Record>, id: nat): Record {
    if id < |names| then names[id] else UNUSED
  }

  ghost predicate Apart(a: Record, b: Record) {
    a.fname.Some? ==> a.fname != b.fname
  }

  /** Records and files hold what the events so far mean, and no two statements share a file. */
  ghost predicate Sound(names: seq<Record>, files: Files, printed: seq<string>, h: seq<Done>, found: Files) {
    && (forall id: nat :: Keeps(At(names, id), Live(h, id), files))
    && (forall id: nat, other: nat :: id != other ==> Apart(At(names, id), At(names, other)))
    && (forall id: nat, k :: 0 <= k < |printed| ==> At(names, id).fname != Some(printed[k]))
    && |printed| == |Sent(h)|
    && (forall k :: 0 <= k < |printed| ==> printed[k] in files && files[printed[k]] == Sent(h)[k])
    && (forall f :: f in found ==>
          f in files && files[f] == found[f] && forall id: nat :: At(names, id).fname != Some(f))
  }

  /** An execute event: the record is given up, and its file printed. */
  lemma AfterExecute(names: seq<Record>, names': seq<Record>, files: Files, printed: seq<string>, printed': seq<string>,
                     h: seq<Done>, e: Event, found: Files)
    requires Sound(names, files, printed, h, found) && (e.ExecLoad? || e.ExecLoadQuery?)
    requires forall other: nat :: other != e.id ==> At(names', other) == At(names, other)
    requires At(names', e.id) == if Next(Live(h, e.id), Done(e, true)).None? then UNUSED else At(names, e.id)
    requires Executes(Live(h, e.id), e) ==>
               At(names, e.id).fname.Some? && printed' == printed + [At(names, e.id).fname.value]
    requires !Executes(Live(h, e.id), e) ==> printed' == printed
    ensures Sound(names', files, printed', h + [Done(e, true)], found)
  {
    var d := Done(e, true);
    AllLiveMore(h, d);
    SentMore(h, d);
    assert Keeps(At(names, e.id), Live(h, e.id), files);
  }

  class LoadProcessor {
    // the names tried for the file of an event
    const candidate: (Event, nat) -> string
    var names: seq<Record>
    var files: Files
    // the files of the printed statements
    var printed: seq<string>
    ghost var history: seq<Done>
    // the files that were there before
    ghost const found: Files

    ghost predicate Valid()
      reads this
    {
      Sound(names, files, printed, history, found)
    }

    /** The first event of a statement failed only if all names are taken. */
    ghost predicate FailsRightly(d: Done)
      reads this
    {
      IsFirst(d.event) && !d.ok ==> forall v :: 0 <= v < 1000 ==> candidate(d.event, v) in files
    }

    constructor (candidate: (Event, nat) -> string, files: Files)
      ensures Valid() && printed == [] && history == [] && this.candidate == candidate
      ensures this.files == files == found
    {
      this.candidate, this.files, names, printed, history, found := candidate, files, [], [], [], files;
    }

    /** Of 1000 names for the event, number v is the first that no file has. */
    predicate IsFirstFree(e: Event, v: int, files: Files) {
      0 <= v < 1000 && candidate(e, v) !in files && forall u :: 0 <= u < v ==> candidate(e, u) in files
    }

    method CreateUniqueFile(e: Event) returns (fname: Option<string>)
      ensures fname.Some? ==> exists v :: IsFirstFree(e, v, files) && fname.value == candidate(e, v)
      ensures fname.None? ==> forall v :: 0 <= v < 1000 ==> candidate(e, v) in files
    {
      for version := 0 to 1000
        invariant forall v :: 0 <= v < version ==> candidate(e, v) in files
      {
        var name := candidate(e, version);
        if name !in files {
          assert IsFirstFree(e, version, files);
          return Some(name);
        }
      }
      return None;
    }

    method SetRecord(id: nat, rec: Record)
      modifies this`names
      ensures At(names, id) == rec && forall other: nat :: other != id ==> At(names, other) == At(old(names), other)
    {
      if id >= |names| {
        names := names + seq(id + 1 - |names|, _ => UNUSED);
      }
      names := names[id := rec];
    }

    /** The first event of a statement: its block goes to a new file. */
    method ProcessFirst(e: Event) returns (ok: bool)
      requires Valid() && IsFirst(e)
      modifies this
      ensures Valid() && history == old(history) + [Done(e, ok)]
      ensures FailsRightly(Done(e, ok)) && forall f :: f in old(files) ==> f in files
      ensures !ok ==> names == old(names) && files == old(files) && printed == old(printed)
      ensures ok ==> exists v :: IsFirstFree(e, v, old(files)) && files == old(files)[candidate(e, v) := e.block]
    {
      var fname := CreateUniqueFile(e);
      if fname.None? {
        ok := false;
        history := history + [Done(e, ok)];
        return;
      }
      SetRecord(e.id, Record(fname, if e.CreateFile? then Some(e) else None));
      files := files[fname.value := e.block];
      ok := true;
      history := history + [Done(e, ok)];
    }

    /** A further block of a statement; it is ignored, with a warning, if the statement is not known. */
    method ProcessAppend(e: Event) returns (ok: bool)
      requires Valid() && e.AppendBlock?
      modifies this`files, this`history
      ensures Valid() && history == old(history) + [Done(e, ok)]
      ensures ok == Live(old(history), e.id).Some? && forall f :: f in old(files) ==> f in files
    {
      var rec := At(names, e.id);
      ok := rec.fname.Some?;
      assert Keeps(rec, Live(history, e.id), files);
      ghost var d := Done(e, ok);
      AllLiveMore(history, d);
      SentMore(history, d);
      if ok {
        files := files[rec.fname.value := files[rec.fname.value] + e.block];
        assert forall other: nat :: other != e.id ==> Apart(rec, At(names, other));
      }
      history := history + [d];
    }

    /** Take the create event of a statement out of its record. */
    method GrabEvent(id: nat) returns (event: Option<Event>, ghost rec: Record)
      modifies this`names
      ensures rec == At(old(names), id) && event == rec.event
      ensures At(names, id) == if event.Some? then UNUSED else rec
      ensures forall other: nat :: other != id ==> At(names, other) == At(old(names), other)
    {
      rec := At(names, id);
      if id >= |names| {
        return None, rec;
      }
      event := names[id].event;
      if event.Some? {
        names := names[id := UNUSED];
      }
    }

    /** Take the file name of a statement that did not begin with a create event. */
    method GrabFname(id: nat) returns (fname: Option<string>, ghost rec: Record)
      modifies this`names
      ensures rec == At(old(names), id) && fname == if rec.event.None? then rec.fname else None
      ensures At(names, id) == if rec.event.None? then UNUSED else rec
      ensures forall other: nat :: other != id ==> At(names, other) == At(old(names), other)
    {
      rec := At(names, id);
      fname := None;
      if id >= |names| {
        return;
      }
      if names[id].event.None? {
        fname := names[id].fname;
        names := names[id := UNUSED];
      }
    }

    /** The execute event of a statement that began with a create event prints it with its file. */
    method ProcessExecLoad(e: Event)
      requires Valid() && e.ExecLoad?
      modifies this`names, this`printed, this`history
      ensures Valid() && history == old(history) + [Done(e, true)]
    {
      ghost var was, before := names, printed;
      var file := At(names, e.id).fname;
      assert Keeps(At(names, e.id), Live(history, e.id), files);
      var event, _ := GrabEvent(e.id);
      if event.Some? {
        printed := printed + [file.value];
      }
      AfterExecute(was, names, files, before, printed, history, e, found);
      history := history + [Done(e, true)];
    }

    /** The same for one that did not; its record is given up even if it is not to be printed. */
    method ProcessExecLoadQuery(e: Event)
      requires Valid() && e.ExecLoadQuery?
      modifies this`names, this`printed, this`history
      ensures Valid() && history == old(history) + [Done(e, true)]
    {
      ghost var was, before := names, printed;
      assert Keeps(At(names, e.id), Live(history, e.id), files);
      var fname, _ := GrabFname(e.id);
      if fname.Some? && !e.ignored {
        printed := printed + [fname.value];
      }
      AfterExecute(was, names, files, before, printed, history, e, found);
      history := history + [Done(e, true)];
    }

    /** The load-related cases of process_event. */
    method ProcessEvent(e: Event) returns (ok: bool)
      requires Valid()
      modifies this
      ensures Valid() && history == old(history) + [Done(e, ok)]
      ensures FailsRightly(Done(e, ok)) && forall f :: f in old(files) ==> f in files
    {
      if e.ExecLoad? {
        ProcessExecLoad(e);
        ok := true;
      } else if e.ExecLoadQuery? {
        ProcessExecLoadQuery(e);
        ok := true;
      } else if e.AppendBlock? {
        ok := ProcessAppend(e);
      } else if e.CreateFile? && e.ignored {
        Skip(e);
        ok := true;
      } else {
        ok := ProcessFirst(e);
      }
    }

    method Skip(e: Event)
      requires Valid() && e.CreateFile? && e.ignored
      modifies this`history
      ensures Valid() && history == old(history) + [Done(e, true)]
    {
      ghost var d := Done(e, true);
      AllLiveMore(history, d);
      SentMore(history, d);
      history := history + [d];
    }

    /**
     A whole log. A statement is printed exactly if it begins and is executed;
     its file holds its first block and its own further blocks. A statement fails
     to begin only if all names for its file are taken. Files that were there
     before are as they were.
     */
    method ProcessLog(log: seq<Event>)
      requires Valid() && history == []
      modifies this
      ensures |history| == |log| && forall i :: 0 <= i < |log| ==> history[i].event == log[i]
      ensures forall i :: 0 <= i < |log| ==> FailsRightly(history[i])
      ensures |printed| == PrintedBefore(history, |log|)
      ensures forall i, j :: Loads(history, i, j) ==>
                               var k, e := PrintedBefore(history, j), history[i].event;
                               && k < |printed| && printed[k] in files
                               && files[printed[k]] == e.block + Blocks(history[i + 1..j], e.id)
      ensures forall f :: f in found ==> f in files && files[f] == found[f]
    {
      for i := 0 to |log|
        invariant Valid() && |history| == i && forall j :: 0 <= j < i ==> history[j].event == log[j]
        invariant forall j :: 0 <= j < i ==> FailsRightly(history[j])
      {
        var _ := ProcessEvent(log[i]);
      }
      SentAll(history);
      forall i, j | Loads(history, i, j)
        ensures var k, e := PrintedBefore(history, j), history[i].event;
                k < |printed| && files[printed[k]] == e.block + Blocks(history[i + 1..j], e.id)
      {
        LoadIsSent(history, i, j);
      }
    }
  }

  /** A statement that begins at i, is pending up to j, and is executed there and wanted. */
  ghost predicate Loads(h: seq<Done>, i: int, j: int) {
    && 0 <= i < j < |h| && Starts(h[i]) && Spares(h[i].event, h[i + 1..j])
    && h[j].event.id == h[i].event.id && Ends(h[i].event, h[j].event)
    && !(h[j].event.ExecLoadQuery? && h[j].event.ignored)
  }

  ghost predicate IsLoaded(h: seq<Done>, j: nat) {
    exists i :: Loads(h, i, j)
  }

  /** How many of the first n events execute a statement. */
  ghost function PrintedBefore(h: seq<Done>, n: nat): nat {
    if n == 0 then 0 else PrintedBefore(h, n - 1) + if IsLoaded(h, n - 1) then 1 else 0
  }

  /** A pending statement began somewhere. */
  lemma {:induction false} LiveBegan(h: seq<Done>, id: nat) returns (i: nat)
    requires Live(h, id).Some?
    ensures i < |h| && Starts(h[i]) && h[i].event.id == id && Spares(h[i].event, h[i + 1..])
    decreases |h|
  {
    var n := |h| - 1;
    if h[n].event.id == id && Starts(h[n]) {
      i := n;
    } else {
      i := LiveBegan(h[..n], id);
      assert h[i + 1..] == h[..n][i + 1..] + [h[n]];
      OwnBlocks(h[..i], h[i], h[i + 1..n]);
      Parts(h, i, n);
      assert h[..n][i + 1..] == h[i + 1..n];
    }
  }

  /** An event prints a statement exactly if it is the end of a load. */
  lemma ExecutesIffLoads(h: seq<Done>, j: nat)
    requires j < |h|
    ensures Executes(Live(h[..j], h[j].event.id), h[j].event) <==> IsLoaded(h, j)
  {
    var id := h[j].event.id;
    if Live(h[..j], id).Some? {
      var i := LiveBegan(h[..j], id);
      assert h[..j][i + 1..] == h[i + 1..j];
      OwnBlocks(h[..i], h[i], h[i + 1..j]);
      Parts(h, i, j);
      if Executes(Live(h[..j], id), h[j].event) {
        assert Loads(h, i, j);
      }
    }
    forall i | Loads(h, i, j)
      ensures Executes(Live(h[..j], id), h[j].event)
    {
      OwnBlocks(h[..i], h[i], h[i + 1..j]);
      Parts(h, i, j);
    }
  }

  lemma {:induction false} SentBefore(h: seq<Done>, n: nat)
    requires n <= |h|
    ensures |Sent(h[..n])| == PrintedBefore(h, n)
  {
    if n > 0 {
      SentBefore(h, n - 1);
      ExecutesIffLoads(h, n - 1);
      assert h[..n] == h[..n - 1] + [h[n - 1]];
      SentMore(h[..n - 1], h[n - 1]);
    }
  }

  lemma SentAll(h: seq<Done>)
    ensures |Sent(h)| == PrintedBefore(h, |h|)
  {
    SentBefore(h, |h|);
    assert h[..|h|] == h;
  }

  /** What such a statement sends is its own blocks. */
  lemma LoadIsSent(h: seq<Done>, i: nat, j: nat)
    requires Loads(h, i, j)
    ensures var k, e := PrintedBefore(h, j), h[i].event;
            k < |Sent(h)| && Sent(h)[k] == e.block + Blocks(h[i + 1..j], e.id)
  {
    OwnBlocks(h[..i], h[i], h[i + 1..j]);
    Parts(h, i, j);
    SentMore(h[..j], h[j]);
    SentStays(h, j + 1);
    SentBefore(h, j);
  }

  lemma Parts(h: seq<Done>, i: nat, j: nat)
    requires i < j < |h|
    ensures h[..j] == h[..i] + [h[i]] + h[i + 1..j] && h[..j + 1] == h[..j] + [h[j]]
  {
  }

  lemma {:induction false} SentStays(h: seq<Done>, n: nat)
    requires n <= |h|
    ensures Sent(h[..n]) <= Sent(h)
    decreases |h|
  {
    if n == |h| {
      assert h[..n] == h;
    } else {
      var m := |h| - 1;
      SentStays(h[..m], n);
      assert h[..m][..n] == h[..n];
    }
  }
}
