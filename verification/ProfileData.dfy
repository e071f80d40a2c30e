/** The sample collector of the CPU profiler: a small hash table of stack traces whose
    evicted entries make up the profile's stream of slots. */
module ProfileDatas {
  import opened Options

  const MAX_STACK_DEPTH := 64
  const ASSOCIATIVITY := 4
  const BUCKETS := 1024
  const BUFFER_LENGTH := 262144
  const SLOT_BYTES := 8

  type Slot = nat

  /** A trace and how often it was seen; an unused table entry has neither. */
  datatype Entry = Entry(count: nat, stack: seq<Slot>)

  predicate Used(e: Entry) {
    e.count > 0 && 0 < |e.stack| <= MAX_STACK_DEPTH
  }

  // --------------------------------------------------------- the stream of slots

  function Header(period: nat): seq<Slot> {
    [0, 3, 0, period, 0]
  }

  const TRAILER: seq<Slot> := [0, 1, 0]

  function Slots(e: Entry): seq<Slot> {
    [e.count, |e.stack|] + e.stack
  }

  function Encode(records: seq<Entry>): seq<Slot> {
    if records == [] then [] else Encode(records[..|records| - 1]) + Slots(records[|records| - 1])
  }

  datatype Profile = Profile(period: nat, records: seq<Entry>)

  /** Reads records up to the end-of-data marker: what a reader of profiles does. */
  function DecodeRecords(s: seq<Slot>): Option<seq<Entry>>
    decreases |s|
  {
    if |s| < 2 || |s| < 2 + s[1] then None
    else if s[0] == 0 then (if s[1] == 1 && s[2] == 0 then Some([]) else None)
    else
      var rest := DecodeRecords(s[2 + s[1]..]);
      if rest.None? then None else Some([Entry(s[0], s[2..2 + s[1]])] + rest.value)
  }

  function Decode(s: seq<Slot>): Option<Profile> {
    if |s| < 5 || s[0] != 0 || s[1] != 3 || s[2] != 0 || s[4] != 0 then None
    else
      var records := DecodeRecords(s[5..]);
      if records.None? then None else Some(Profile(s[3], records.value))
  }

  lemma DecodeFirst(e: Entry, s: seq<Slot>)
    requires e.count > 0
    ensures DecodeRecords(Slots(e) + s) ==
      if DecodeRecords(s).None? then None else Some([e] + DecodeRecords(s).value)
  {
    var t := Slots(e) + s;
    assert t[2..2 + |e.stack|] == e.stack;
    assert t[2 + |e.stack|..] == s;
  }

  lemma {:induction false} EncodeFirst(records: seq<Entry>)
    requires records != []
    ensures Encode(records) == Slots(records[0]) + Encode(records[1..])
  {
    if |records| > 1 {
      var n := |records| - 1;
      EncodeFirst(records[..n]);
      assert records[1..][..n - 1] == records[..n][1..];
    } else {
      assert records[..0] == [] && records[1..] == [];
    }
  }

  lemma {:induction false} DecodeEncoded(records: seq<Entry>, more: seq<Slot>)
    requires forall e :: e in records ==> e.count > 0
    ensures DecodeRecords(Encode(records) + TRAILER + more) == Some(records)
  {
    if records == [] {
      assert Encode(records) + TRAILER + more == TRAILER + more;
    } else {
      EncodeFirst(records);
      var rest := Encode(records[1..]) + TRAILER + more;
      assert Encode(records) + TRAILER + more == Slots(records[0]) + rest;
      DecodeEncoded(records[1..], more);
      DecodeFirst(records[0], rest);
      assert [records[0]] + records[1..] == records;
    }
  }

  /** Reading a profile's stream gives its period and records back. */
  lemma DecodeStream(period: nat, records: seq<Entry>, more: seq<Slot>)
    requires forall e :: e in records ==> e.count > 0
    ensures Decode(Header(period) + Encode(records) + TRAILER + more) == Some(Profile(period, records))
  {
    var s := Header(period) + Encode(records) + TRAILER + more;
    assert s[5..] == Encode(records) + TRAILER + more;
    DecodeEncoded(records, more);
  }

  // ------------------------------------------------------------------- tallies

  function Share(e: Entry, trace: seq<Slot>): nat {
    if e.stack == trace then e.count else 0
  }

  /** How often the trace is counted in the entries. */
  ghost function Tally(entries: seq<Entry>, trace: seq<Slot>): nat {
    if entries == [] then 0
    else Tally(entries[..|entries| - 1], trace) + Share(entries[|entries| - 1], trace)
  }

  lemma TallyAppend(entries: seq<Entry>, e: Entry, trace: seq<Slot>)
    ensures Tally(entries + [e], trace) == Tally(entries, trace) + Share(e, trace)
  {
    assert (entries + [e])[..|entries|] == entries;
  }

  lemma {:induction false} TallyUpdate(entries: seq<Entry>, i: nat, e: Entry, trace: seq<Slot>)
    requires i < |entries|
    ensures Tally(entries[i := e], trace) + Share(entries[i], trace) == Tally(entries, trace) + Share(e, trace)
  {
    var n := |entries| - 1;
    if i < n {
      assert entries[i := e][..n] == entries[..n][i := e];
      TallyUpdate(entries[..n], i, e, trace);
    } else {
      assert entries[i := e][..n] == entries[..n];
    }
  }

  lemma {:induction false} TallyNone(entries: seq<Entry>, trace: seq<Slot>)
    requires forall e :: e in entries ==> e.count == 0
    ensures Tally(entries, trace) == 0
  {
    if entries != [] {
      TallyNone(entries[..|entries| - 1], trace);
    }
  }

  /** Every added trace is counted once, in the stream or in the table. */
  ghost predicate Balanced(adds: multiset<seq<Slot>>, records: seq<Entry>, table: seq<Entry>) {
    forall trace :: adds[trace] == Tally(records, trace) + Tally(table, trace)
  }

  /** An entry moves from the table to the stream. */
  lemma EvictBalanced(adds: multiset<seq<Slot>>, records: seq<Entry>, table: seq<Entry>, i: nat)
    requires i < |table| && Balanced(adds, records, table)
    ensures Balanced(adds, records + [table[i]], table[i := Entry(0, [])])
  {
    forall trace
      ensures adds[trace] == Tally(records + [table[i]], trace) + Tally(table[i := Entry(0, [])], trace)
    {
      TallyAppend(records, table[i], trace);
      TallyUpdate(table, i, Entry(0, []), trace);
    }
  }

  /** A trace is added where it is already counted, or in an unused entry. */
  lemma AddBalanced(adds: multiset<seq<Slot>>, records: seq<Entry>, table: seq<Entry>, i: nat, trace: seq<Slot>)
    requires i < |table| && Balanced(adds, records, table) && (table[i].count == 0 || table[i].stack == trace)
    ensures Balanced(adds + multiset{trace}, records, table[i := Entry(table[i].count + 1, trace)])
  {
    var e := Entry(table[i].count + 1, trace);
    forall other
      ensures (adds + multiset{trace})[other] == Tally(records, other) + Tally(table[i := e], other)
    {
      TallyUpdate(table, i, e, other);
    }
  }

  // -------------------------------------------------------------- the collector

  /** One round of the hash: rotate by a byte, add the slot times 41. */
  function HashStep(h: nat, slot: Slot): nat {
    ((h * 0x100) % 0x1_0000_0000_0000_0000 + h / 0x100_0000_0000_0000 + slot * 31 + slot * 7 + slot * 3)
      % 0x1_0000_0000_0000_0000
  }

  ghost predicate TableOk(table: seq<Entry>) {
    |table| == BUCKETS * ASSOCIATIVITY && forall e :: e in table ==> Used(e) || e == Entry(0, [])
  }

  /** The stream holds the header and the records, and all that was added is counted. */
  ghost predicate Collected(stream: seq<Slot>, period: nat, table: seq<Entry>, records: seq<Entry>,
                            adds: multiset<seq<Slot>>) {
    && TableOk(table) && (forall e :: e in records ==> Used(e))
    && stream == Header(period) + Encode(records)
    && Balanced(adds, records, table)
  }

  lemma StartCollected(period: nat, table: seq<Entry>)
    requires table == seq(BUCKETS * ASSOCIATIVITY, _ => Entry(0, []))
    ensures Collected(Header(period), period, table, [], multiset{})
  {
    assert Header(period) + Encode([]) == Header(period);
    forall trace
      ensures Tally(table, trace) == 0
    {
      TallyNone(table, trace);
    }
  }

  lemma EvictCollected(stream: seq<Slot>, period: nat, table: seq<Entry>, records: seq<Entry>,
                       adds: multiset<seq<Slot>>, i: nat)
    requires Collected(stream, period, table, records, adds) && i < |table|
    ensures |table[i].stack| <= MAX_STACK_DEPTH && (table[i].count == 0 ==> table[i := Entry(0, [])] == table)
    ensures table[i].count > 0 ==>
      Collected(stream + Slots(table[i]), period, table[i := Entry(0, [])], records + [table[i]], adds)
  {
    hide Balanced, Used;
    EntryAt(table, i);
    EvictBalanced(adds, records, table, i);
    EncodeMore(records, table[i]);
    ClearedOk(table, i);
    hide TableOk;
    if table[i].count > 0 {
      assert Header(period) + Encode(records) + Slots(table[i]) == Header(period) + (Encode(records) + Slots(table[i]));
    } else {
      assert table[i := table[i]] == table;
    }
  }

  lemma AddCollected(stream: seq<Slot>, period: nat, table: seq<Entry>, records: seq<Entry>, adds: multiset<seq<Slot>>,
                     i: nat, trace: seq<Slot>)
    requires Collected(stream, period, table, records, adds) && i < |table|
    requires 0 < |trace| <= MAX_STACK_DEPTH && (table[i].count == 0 || table[i].stack == trace)
    ensures Collected(stream, period, table[i := Entry(table[i].count + 1, trace)], records, adds + multiset{trace})
  {
    hide Balanced, Used;
    AddBalanced(adds, records, table, i, trace);
    AddedOk(table, i, trace);
  }

  /** With the table empty everything that was added is in the records. */
  lemma EndCollected(stream: seq<Slot>, period: nat, table: seq<Entry>, records: seq<Entry>, adds: multiset<seq<Slot>>)
    requires Collected(stream, period, table, records, adds)
    requires forall j :: 0 <= j < |table| ==> table[j] == Entry(0, [])
    ensures stream == Header(period) + Encode(records) && forall trace :: Tally(records, trace) == adds[trace]
    ensures Decode(stream + TRAILER) == Some(Profile(period, records))
  {
    AllCounted(adds, records, table);
    assert stream + TRAILER + [] == stream + TRAILER;
    DecodeStream(period, records, []);
  }

  class ProfileData {
    var enabled: bool                     // out_ is open
    var table: seq<Entry>                 // hash_, four entries for each bucket
    var evict: array<Slot>                // evict_
    var numEvicted: nat
    var out: seq<Slot>                    // what was written to the file
    var count: nat
    var evictions: nat
    var totalBytes: nat
    ghost var period: nat
    ghost var records: seq<Entry>         // the entries evicted so far
    ghost var adds: multiset<seq<Slot>>   // the traces added, cut to the depth kept

    /** The slots written and those waiting in the buffer. */
    ghost function Stream(): seq<Slot>
      requires numEvicted <= evict.Length
      reads this, evict
    {
      out + evict[..numEvicted]
    }

    ghost predicate BufferOk()
      reads this
    {
      evict.Length == BUFFER_LENGTH && numEvicted <= BUFFER_LENGTH && totalBytes == SLOT_BYTES * |out|
    }

    ghost predicate Valid()
      reads this, evict
    {
      BufferOk() && (enabled ==> Collected(Stream(), period, table, records, adds) && count == |adds|)
    }

    constructor ()
      ensures Valid() && !enabled && fresh(evict)
    {
      enabled, table, numEvicted, out := false, [], 0, [];
      count, evictions, totalBytes := 0, 0, 0;
      evict := new Slot[BUFFER_LENGTH];
      period, records, adds := 0, [], multiset{};
    }

    /** Fails while a profile is being collected or when the file cannot be opened. */
    method Start(frequency: nat, opens: bool) returns (ok: bool)
      requires Valid() && frequency != 0
      modifies this, evict
      ensures Valid() && evict == old(evict)
      ensures ok <==> !old(enabled) && opens
      ensures ok ==> evict[..5] == [0, 3, 0, period, 0] && numEvicted == 5 && count == evictions == totalBytes == 0
      ensures ok ==> enabled && adds == multiset{} && period == 1000000 / frequency && out == []
      ensures !ok ==> enabled == old(enabled) && out == old(out) && adds == old(adds)
    {
      hide Collected;
      if enabled {
        return false;
      }
      if !opens {
        return false;
      }
      PutHeader(1000000 / frequency);
      Begin(1000000 / frequency);
      return true;
    }

    method PutHeader(p: nat)
      requires evict.Length == BUFFER_LENGTH
      modifies evict
      ensures evict[..5] == Header(p) == [0, 3, 0, p, 0]
    {
      evict[0] := 0;
      evict[1] := 3;
      evict[2] := 0;
      evict[3] := p;
      evict[4] := 0;
    }

    /** The counters and the table are reset, with the header in the buffer. */
    method Begin(p: nat)
      requires evict.Length == BUFFER_LENGTH && evict[..5] == Header(p)
      modifies this`numEvicted, this`count, this`evictions, this`totalBytes, this`out, this`table, this`period,
               this`records, this`adds, this`enabled
      ensures Valid() && enabled && period == p && out == [] && adds == multiset{} && numEvicted == 5
      ensures count == evictions == totalBytes == 0
    {
      hide Collected;
      numEvicted, count, evictions, totalBytes, out, table, period, records, adds, enabled :=
        5, 0, 0, 0, [], seq(BUCKETS * ASSOCIATIVITY, _ => Entry(0, [])), p, [], multiset{}, true;
      StartCollected(p, table);
      assert Stream() == Header(p);
    }

    /** The buffer is written out; the stream stays the same. */
    method FlushEvicted()
      requires BufferOk()
      modifies this`out, this`numEvicted, this`totalBytes
      ensures BufferOk() && numEvicted == 0 && out == old(Stream()) == Stream()
      ensures totalBytes == old(totalBytes) + SLOT_BYTES * (|out| - |old(out)|)
    {
      if numEvicted > 0 {
        totalBytes := totalBytes + SLOT_BYTES * numEvicted;
        out := out + evict[..numEvicted];
      }
      numEvicted := 0;
      assert evict[..0] == [];
    }

    /** The entry's slots are appended to the stream; the buffer does not overflow. */
    method Evict(e: Entry)
      requires BufferOk() && |e.stack| <= MAX_STACK_DEPTH
      modifies this`out, this`numEvicted, this`totalBytes, evict
      ensures BufferOk() && Stream() == old(Stream()) + Slots(e) == old(Stream()) + ([e.count, |e.stack|] + e.stack)
    {
      var d := |e.stack|;
      var nslots := d + 2;
      if numEvicted + nslots > BUFFER_LENGTH {
        FlushEvicted();
      }
      Append([e.count, d]);
      Append(e.stack);
      assert old(Stream()) + [e.count, d] + e.stack == old(Stream()) + Slots(e);
    }

    /** Slots are put behind those in the buffer, which has room for them. */
    method Append(slots: seq<Slot>)
      requires BufferOk() && numEvicted + |slots| <= BUFFER_LENGTH
      modifies this`numEvicted, evict
      ensures BufferOk() && numEvicted == old(numEvicted) + |slots| && Stream() == old(Stream()) + slots
    {
      CopySlots(numEvicted, slots);
      numEvicted := numEvicted + |slots|;
    }

    /** Copies slots into the buffer. */
    method CopySlots(at: nat, stack: seq<Slot>)
      requires at + |stack| <= evict.Length
      modifies evict
      ensures evict[..at + |stack|] == old(evict[..at]) + stack
    {
      for i := 0 to |stack|
        invariant evict[..at + i] == old(evict[..at]) + stack[..i]
      {
        evict[at + i] := stack[i];
        assert evict[..at + i + 1] == evict[..at + i] + [stack[i]];
      }
      assert stack[..|stack|] == stack;
    }

    /** Where the trace's bucket begins. */
    static method BucketOf(trace: seq<Slot>) returns (base: nat)
      ensures base + ASSOCIATIVITY <= BUCKETS * ASSOCIATIVITY
    {
      var h: nat := 0;
      for i := 0 to |trace| {
        h := HashStep(h, trace[i]);
      }
      base := ASSOCIATIVITY * (h % BUCKETS);
    }

    /** The bucket's entry of the trace, or its entry with the smallest count. */
    static method Place(table: seq<Entry>, base: nat, trace: seq<Slot>) returns (i: nat, found: bool)
      requires base + ASSOCIATIVITY <= |table|
      ensures base <= i < base + ASSOCIATIVITY && (found <==> table[i].stack == trace)
      ensures !found ==> forall j :: base <= j < base + ASSOCIATIVITY ==>
        table[j].stack != trace && table[i].count <= table[j].count
    {
      for a := 0 to ASSOCIATIVITY
        invariant forall j :: base <= j < base + a ==> table[j].stack != trace
      {
        if table[base + a].stack == trace {
          return base + a, true;
        }
      }
      i, found := base, false;
      for a := 1 to ASSOCIATIVITY
        invariant base <= i < base + ASSOCIATIVITY
        invariant forall j :: base <= j < base + a ==> table[i].count <= table[j].count
      {
        if table[base + a].count < table[i].count {
          i := base + a;
        }
      }
    }

    /** The entry at i, if used, goes to the stream and is cleared. */
    method EvictAt(i: nat)
      requires BufferOk() && Collected(Stream(), period, table, records, adds) && i < |table|
      modifies this`out, this`numEvicted, this`totalBytes, this`table, this`records, evict
      ensures BufferOk() && Collected(Stream(), period, table, records, adds)
      ensures table == old(table)[i := Entry(0, [])]
    {
      hide Collected;
      EvictCollected(Stream(), period, table, records, adds, i);
      if table[i].count > 0 {
        Evict(table[i]);
        records := records + [table[i]];
        table := table[i := Entry(0, [])];
      }
    }

    /** One more sample: it is counted in the table, after the entry that had to make room
        for it went to the stream.  Of a deep stack the innermost frames count. */
    method Add(stack: seq<Slot>)
      requires Valid() && (enabled ==> stack != [])
      modifies this, evict
      ensures Valid() && enabled == old(enabled) && period == old(period) && evict == old(evict)
      ensures adds == if enabled then old(adds) + multiset{Kept(stack)} else old(adds)
      ensures enabled ==> count == old(count) + 1
      ensures enabled ==> exists i :: 0 <= i < |table| && table[i].stack == Kept(stack) && table[i].count > 0
    {
      hide Collected;
      if !enabled {
        return;
      }
      var trace := if |stack| > MAX_STACK_DEPTH then stack[..MAX_STACK_DEPTH] else stack;
      count := count + 1;
      AddTrace(trace);
    }

    method AddTrace(trace: seq<Slot>)
      requires BufferOk() && Collected(Stream(), period, table, records, adds) && 0 < |trace| <= MAX_STACK_DEPTH
      modifies this`out, this`numEvicted, this`totalBytes, this`table, this`records, this`evictions, this`adds, evict
      ensures BufferOk() && Collected(Stream(), period, table, records, adds) && adds == old(adds) + multiset{trace}
      ensures exists i :: 0 <= i < |table| && table[i].stack == trace && table[i].count > 0
    {
      hide Collected;
      var base := BucketOf(trace);
      CollectedTable(Stream(), period, table, records, adds);
      var i, found := Place(table, base, trace);
      if !found {
        if table[i].count > 0 {
          evictions := evictions + 1;
        }
        EvictAt(i);
      }
      AddCollected(Stream(), period, table, records, adds, i, trace);
      table, adds := table[i := Entry(table[i].count + 1, trace)], adds + multiset{trace};
      assert table[i].stack == trace && table[i].count > 0;
    }

    /** Every used entry goes to the stream. */
    method EvictAll()
      requires BufferOk() && Collected(Stream(), period, table, records, adds)
      modifies this`out, this`numEvicted, this`totalBytes, this`table, this`records, evict
      ensures BufferOk() && Collected(Stream(), period, table, records, adds)
      ensures forall j :: 0 <= j < |table| ==> table[j] == Entry(0, [])
    {
      hide Collected;
      CollectedTable(Stream(), period, table, records, adds);
      for i := 0 to |table|
        invariant BufferOk() && Collected(Stream(), period, table, records, adds)
        invariant |table| == |old(table)| && forall j :: 0 <= j < i ==> table[j] == Entry(0, [])
      {
        EvictAt(i);
      }
    }

    /** All counted samples go to the stream and are written out. */
    method FlushTable()
      requires Valid()
      modifies this, evict
      ensures Valid() && enabled == old(enabled) && adds == old(adds) && period == old(period) && evict == old(evict)
      ensures enabled ==> numEvicted == 0 && out == Header(period) + Encode(records)
      ensures enabled ==> forall trace :: Tally(records, trace) == adds[trace]
    {
      hide Collected;
      if !enabled {
        return;
      }
      EvictAll();
      EndCollected(Stream(), period, table, records, adds);
      FlushEvicted();
    }

    /** The profile ends: its stream is a header, the records and the trailer, and each
        trace is counted in the records as often as it was added. */
    method Stop()
      requires Valid()
      modifies this, evict
      ensures Valid() && !enabled && adds == old(adds) && period == old(period)
      ensures !old(enabled) ==> out == old(out)
      ensures old(enabled) ==> out == [0, 3, 0, period, 0] + Encode(records) + [0, 1, 0]
      ensures old(enabled) ==> Decode(out) == Some(Profile(period, records))
      ensures old(enabled) ==> forall trace :: Tally(records, trace) == adds[trace]
    {
      hide Collected, Decode, Encode, Tally;
      if !enabled {
        return;
      }
      EvictAll();
      ghost var stream := Stream();
      EndCollected(stream, period, table, records, adds);
      PutTrailer();
      FlushEvicted();
      enabled := false;
    }

    method PutTrailer()
      requires BufferOk()
      modifies this`out, this`numEvicted, this`totalBytes, evict
      ensures BufferOk() && Stream() == old(Stream()) + TRAILER
    {
      if numEvicted + 3 > BUFFER_LENGTH {
        FlushEvicted();
      }
      Append(TRAILER);
    }
  }

  lemma CollectedTable(stream: seq<Slot>, period: nat, table: seq<Entry>, records: seq<Entry>,
                       adds: multiset<seq<Slot>>)
    requires Collected(stream, period, table, records, adds)
    ensures |table| == BUCKETS * ASSOCIATIVITY
  {
  }

  /** The frames that are kept of a stack. */
  function Kept(stack: seq<Slot>): (t: seq<Slot>)
    ensures t <= stack && |t| == if |stack| > MAX_STACK_DEPTH then MAX_STACK_DEPTH else |stack|
  {
    if |stack| > MAX_STACK_DEPTH then stack[..MAX_STACK_DEPTH] else stack
  }

  lemma EntryAt(table: seq<Entry>, i: nat)
    requires TableOk(table) && i < |table|
    ensures if table[i].count > 0 then Used(table[i]) else table[i] == Entry(0, [])
    ensures |table[i].stack| <= MAX_STACK_DEPTH && (table[i].stack != [] ==> table[i].count > 0)
  {
    assert table[i] in table;
  }

  lemma ClearedOk(table: seq<Entry>, i: nat)
    requires TableOk(table) && i < |table|
    ensures TableOk(table[i := Entry(0, [])])
  {
    var t := table[i := Entry(0, [])];
    forall e | e in t
      ensures Used(e) || e == Entry(0, [])
    {
      var j :| 0 <= j < |t| && t[j] == e;
      if j != i {
        assert e == table[j] && table[j] in table;
      }
    }
  }

  lemma AddedOk(table: seq<Entry>, i: nat, trace: seq<Slot>)
    requires TableOk(table) && i < |table| && 0 < |trace| <= MAX_STACK_DEPTH
    ensures TableOk(table[i := Entry(table[i].count + 1, trace)])
  {
    var t := table[i := Entry(table[i].count + 1, trace)];
    forall e | e in t
      ensures Used(e) || e == Entry(0, [])
    {
      var j :| 0 <= j < |t| && t[j] == e;
      if j != i {
        assert e == table[j] && table[j] in table;
      }
    }
  }

  lemma EncodeMore(records: seq<Entry>, e: Entry)
    ensures Encode(records + [e]) == Encode(records) + Slots(e)
  {
    assert (records + [e])[..|records|] == records;
  }

  lemma AllCounted(adds: multiset<seq<Slot>>, records: seq<Entry>, table: seq<Entry>)
    requires Balanced(adds, records, table) && forall j :: 0 <= j < |table| ==> table[j] == Entry(0, [])
    ensures forall trace :: Tally(records, trace) == adds[trace]
  {
    forall trace
      ensures Tally(records, trace) == adds[trace]
    {
      TallyNone(table, trace);
    }
  }
}
