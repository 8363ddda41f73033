/** Where what Redis, a reader or a writer holds comes from: over every sequence of repository calls
    and expiries, each slot holds what the last call that touched it has left there. */
module CacheOrigins {
  import opened Model
  import opened Schema
  import opened Listing
  import opened Cache
  import opened Coherence

  /** The key of an entry, the key of the list, the rows a reader has fetched, and the keys a writer
      has still to delete. */
  datatype Slot = Entry(text: string) | TheList | Reader(reader: nat) | Writer(writer: nat)

  datatype Held =
    | Nothing
    | Json(json: FileJson)
    | Jsons(jsons: seq<FileJson>)
    | Rows(rows: Reading)
    | Keys(keys: Writing)

  function Content(r: Repo, slot: Slot): Held {
    match slot
    case Entry(text) => if text in r.cached.byId then Json(r.cached.byId[text]) else Nothing
    case TheList => if r.cached.list.Some? then Jsons(r.cached.list.value) else Nothing
    case Reader(i) => if i in r.reading then Rows(r.reading[i]) else Nothing
    case Writer(i) => if i in r.writing then Keys(r.writing[i]) else Nothing
  }

  // ---------- who touches what ----------

  predicate FillsFile(r: Repo, call: Call) {
    call.FillFile? && call.reader in r.reading && r.reading[call.reader].FileRead?
  }

  predicate FillsList(r: Repo, call: Call) {
    call.FillList? && call.reader in r.reading && r.reading[call.reader].ListRead?
  }

  predicate DropsFile(r: Repo, call: Call) {
    call.ForgetFile? && call.writer in r.writing && r.writing[call.writer].Forgets?
  }

  predicate DropsList(r: Repo, call: Call) {
    call.ForgetList? && call.writer in r.writing && r.writing[call.writer].Invalidates?
  }

  predicate AddsFile(r: Repo, call: Call) {
    call.CreateFileReference? && !call.fails && CanInsertFile(r.db, call.id, call.file.hash)
  }

  /** Redis is touched only while it can be reached, by a fill or a DEL of that key, or by its TTL; a
      reader and a writer are touched only by their own calls. */
  predicate Touches(r: Repo, call: Call, slot: Slot) {
    match slot
    case Entry(text) =>
      || (FillsFile(r, call) && call.up && r.reading[call.reader].text == text)
      || (DropsFile(r, call) && call.up && r.writing[call.writer].text == text)
      || call == ExpireFile(text)
    case TheList =>
      (FillsList(r, call) && call.up) || (DropsList(r, call) && call.up) || call == ExpireList
    case Reader(i) =>
      || ((call.QueryFile? || call.QueryList?) && call.reader == i)
      || ((FillsFile(r, call) || FillsList(r, call)) && call.reader == i)
    case Writer(i) =>
      || (AddsFile(r, call) && call.writer == i)
      || (call.DeleteByID? && call.writer == i)
      || ((DropsFile(r, call) || DropsList(r, call)) && call.writer == i)
  }

  /** What such a call leaves: a fill the rows that its reader had fetched, a query the rows of that
      moment, a statement the keys to delete, the first DEL of a delete the key of the list, and every
      other one nothing. */
  function Left(canon: string -> string, r: Repo, call: Call, slot: Slot): Held
    requires call.QueryList? ==> IsOrder(r.db, call.order) && call.delivered <= |call.order|
  {
    match slot
    case Entry(text) => if FillsFile(r, call) then Json(r.reading[call.reader].json) else Nothing
    case TheList => if FillsList(r, call) then Jsons(r.reading[call.reader].jsons) else Nothing
    case Reader(i) =>
      if call.QueryFile? && !call.fails && Joins(r.db, canon(call.text)) then
        Rows(FileRead(call.text, Encode(Join(r.db, canon(call.text)))))
      else if call.QueryList? && !call.fails then
        Rows(ListRead(EncodeAll(JoinAll(r.db, call.order[..call.delivered]))))
      else if call.QueryList? && call.delivered == 0 then Rows(ListRead([]))
      else Nothing
    case Writer(i) =>
      if call.DeleteByID? then Keys(Forgets(call.text))
      else if call.CreateFileReference? || call.ForgetFile? then Keys(Invalidates)
      else Nothing
  }

  lemma OneCallEntry(canon: string -> string, r: Repo, call: Call, text: string)
    requires Possible(canon, r, call)
    ensures Content(Do(canon, r, call), Entry(text))
         == if Touches(r, call, Entry(text)) then Left(canon, r, call, Entry(text)) else Content(r, Entry(text))
  {
  }

  lemma OneCallList(canon: string -> string, r: Repo, call: Call)
    requires Possible(canon, r, call)
    ensures Content(Do(canon, r, call), TheList)
         == if Touches(r, call, TheList) then Left(canon, r, call, TheList) else Content(r, TheList)
  {
  }

  lemma OneCallReader(canon: string -> string, r: Repo, call: Call, i: nat)
    requires Possible(canon, r, call)
    ensures Content(Do(canon, r, call), Reader(i))
         == if Touches(r, call, Reader(i)) then Left(canon, r, call, Reader(i)) else Content(r, Reader(i))
  {
  }

  lemma OneCallWriter(canon: string -> string, r: Repo, call: Call, i: nat)
    requires Possible(canon, r, call)
    ensures Content(Do(canon, r, call), Writer(i))
         == if Touches(r, call, Writer(i)) then Left(canon, r, call, Writer(i)) else Content(r, Writer(i))
  {
  }

  lemma OneCall(canon: string -> string, r: Repo, call: Call, slot: Slot)
    requires Possible(canon, r, call)
    ensures Content(Do(canon, r, call), slot)
         == if Touches(r, call, slot) then Left(canon, r, call, slot) else Content(r, slot)
  {
    match slot {
      case Entry(text) => OneCallEntry(canon, r, call, text);
      case TheList => OneCallList(canon, r, call);
      case Reader(i) => OneCallReader(canon, r, call, i);
      case Writer(i) => OneCallWriter(canon, r, call, i);
    }
  }

  // ---------- sequences ----------

  ghost predicate Untouched(canon: string -> string, r: Repo, calls: seq<Call>, slot: Slot)
    requires PossibleCalls(canon, r, calls)
    decreases |calls|
  {
    calls == [] || (!Touches(r, calls[0], slot) && Untouched(canon, Do(canon, r, calls[0]), calls[1..], slot))
  }

  /** The call before place `k` touched the slot, and none has since. */
  ghost predicate TouchedLastAt(canon: string -> string, r: Repo, calls: seq<Call>, slot: Slot, k: nat) {
    && 0 < k <= |calls|
    && PossibleCalls(canon, r, calls[..k - 1])
    && var before := DoAll(canon, r, calls[..k - 1]);
       && Possible(canon, before, calls[k - 1]) && Touches(before, calls[k - 1], slot)
       && PossibleCalls(canon, Do(canon, before, calls[k - 1]), calls[k..])
       && Untouched(canon, Do(canon, before, calls[k - 1]), calls[k..], slot)
  }

  lemma FirstTouch(canon: string -> string, r: Repo, calls: seq<Call>, slot: Slot)
    requires calls != [] && PossibleCalls(canon, r, calls) && Touches(r, calls[0], slot)
    requires Untouched(canon, Do(canon, r, calls[0]), calls[1..], slot)
    ensures TouchedLastAt(canon, r, calls, slot, 1)
  {
    assert calls[..0] == [];
  }

  lemma LaterTouch(canon: string -> string, r: Repo, calls: seq<Call>, slot: Slot, n: nat)
    requires calls != [] && PossibleCalls(canon, r, calls)
    requires TouchedLastAt(canon, Do(canon, r, calls[0]), calls[1..], slot, n)
    ensures TouchedLastAt(canon, r, calls, slot, n + 1)
    ensures DoAll(canon, r, calls[..n]) == DoAll(canon, Do(canon, r, calls[0]), calls[1..][..n - 1])
  {
    assert calls[..n][1..] == calls[1..][..n - 1] && calls[1..][n..] == calls[n + 1..];
  }

  /** Over every sequence: each slot holds what the last call that touched it has left, and what it
      held at first if none has. */
  lemma {:induction false} HoldsWhatWasLeft(canon: string -> string, r: Repo, calls: seq<Call>, slot: Slot)
    returns (k: nat)
    requires PossibleCalls(canon, r, calls)
    ensures k == 0 ==>
              Untouched(canon, r, calls, slot) && Content(DoAll(canon, r, calls), slot) == Content(r, slot)
    ensures k > 0 ==>
              TouchedLastAt(canon, r, calls, slot, k)
              && Content(DoAll(canon, r, calls), slot)
                 == Left(canon, DoAll(canon, r, calls[..k - 1]), calls[k - 1], slot)
    decreases |calls|
  {
    if calls == [] {
      k := 0;
    } else {
      var r' := Do(canon, r, calls[0]);
      OneCall(canon, r, calls[0], slot);
      var n := HoldsWhatWasLeft(canon, r', calls[1..], slot);
      if n > 0 {
        k := n + 1;
        LaterTouch(canon, r, calls, slot, n);
      } else if Touches(r, calls[0], slot) {
        k := 1;
        FirstTouch(canon, r, calls, slot);
        assert DoAll(canon, r, calls[..0]) == r;
      } else {
        k := 0;
      }
    }
  }
}
