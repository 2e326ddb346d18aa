/**
  utils/overlaps_cuda/rbbox_overlaps.cpp: the cache of code objects, an array of entries sorted by
  line number that grows by 64. `granted` says whether the allocator grants a request.
*/
module CodeCache {
  import opened Options

  datatype Entry<T> = Entry(codeLine: int, codeObject: T)

  ghost predicate StrictlySorted<T>(es: seq<Entry<T>>)
  {
    forall i, j :: 0 <= i < j < |es| ==> es[i].codeLine < es[j].codeLine
  }

  /** What the filled part of the cache always is: sorted, without repeated lines, and without line 0. */
  ghost predicate IsTable<T>(es: seq<Entry<T>>)
  {
    StrictlySorted(es) && forall i :: 0 <= i < |es| ==> es[i].codeLine != 0
  }

  /** The finite map that a strictly sorted array of entries stands for. */
  function MapOf<T>(es: seq<Entry<T>>): map<int, T>
  {
    if es == [] then map[]
    else MapOf(es[..|es| - 1])[es[|es| - 1].codeLine := es[|es| - 1].codeObject]
  }

  lemma {:induction false} MapOfAt<T>(es: seq<Entry<T>>, i: nat)
    requires StrictlySorted(es) && i < |es|
    ensures es[i].codeLine in MapOf(es) && MapOf(es)[es[i].codeLine] == es[i].codeObject
  {
    if i < |es| - 1 { MapOfAt(es[..|es| - 1], i); }
  }

  lemma {:induction false} MapOfLines<T>(es: seq<Entry<T>>, line: int)
    requires forall i :: 0 <= i < |es| ==> es[i].codeLine != line
    ensures line !in MapOf(es)
  {
    if es != [] { MapOfLines(es[..|es| - 1], line); }
  }

  lemma {:induction false} MapSize<T>(es: seq<Entry<T>>)
    requires StrictlySorted(es)
    ensures |MapOf(es)| == |es|
  {
    if es != [] {
      MapSize(es[..|es| - 1]);
      MapOfLines(es[..|es| - 1], es[|es| - 1].codeLine);
    }
  }

  /** pos is where codeLine is or belongs. */
  ghost predicate IsLowerBound<T>(es: seq<Entry<T>>, codeLine: int, pos: int)
  {
    && 0 <= pos <= |es|
    && (forall i :: 0 <= i < pos ==> es[i].codeLine < codeLine)
    && (forall i :: pos <= i < |es| ==> codeLine <= es[i].codeLine)
  }

  /** The loop's last probe `mid`, which decides the answer, always lies next to `start`. */
  method Bisect<T>(entries: array<Entry<T>>, count: nat, codeLine: int) returns (pos: int)
    requires 0 < count <= entries.Length && StrictlySorted(entries[..count])
    ensures IsLowerBound(entries[..count], codeLine, pos)
  {
    ghost var es := entries[..count];
    var start, mid, end := 0, 0, count - 1;
    if end >= 0 && codeLine > entries[end].codeLine {
      return count;
    }
    while start < end
      invariant 0 <= start <= end < count && 0 <= mid < count
      invariant forall i :: 0 <= i < start ==> es[i].codeLine < codeLine
      invariant forall i :: end <= i < count ==> codeLine <= es[i].codeLine
      invariant mid == end || mid == start - 1 || mid == start == 0
    {
      mid := start + (end - start) / 2;
      assert entries[mid] == es[mid];
      if codeLine < entries[mid].codeLine {
        end := mid;
      } else if codeLine > entries[mid].codeLine {
        start := mid + 1;
      } else {
        return mid;
      }
    }
    assert entries[mid] == es[mid];
    if codeLine <= entries[mid].codeLine {
      return mid;
    } else {
      return mid + 1;
    }
  }

  const CHUNK := 64

  /**
    The specification: a map and how many entries there is room for. A full map takes a new line only if it may
    grow.
  */
  datatype State<T> = State(contents: map<int, T>, room: nat) {
    function Insert(codeLine: int, codeObject: T, granted: bool): State<T>
    {
      if codeLine == 0 then this
      else if codeLine in contents || |contents| < room then State(contents[codeLine := codeObject], room)
      else if granted then State(contents[codeLine := codeObject], room + CHUNK)
      else this
    }

    function Find(codeLine: int): Option<T>
    {
      if codeLine != 0 && codeLine in contents then Some(contents[codeLine]) else None
    }
  }

  class Cache<T(0)> {
    var count: nat
    var maxCount: nat
    var entries: array?<Entry<T>>
    ghost var table: seq<Entry<T>>  // the filled part of entries

    constructor ()
      ensures Valid() && Abstract() == State(map[], 0) && entries == null
    {
      count, maxCount, entries, table := 0, 0, null, [];
    }

    ghost predicate Valid()
      reads this, entries
    {
      && IsTable(table) && |table| == count
      && if entries == null then count == maxCount == 0
         else 0 < count <= maxCount == entries.Length && entries[..count] == table
    }

    ghost function Abstract(): State<T>
      reads this
    {
      State(MapOf(table), maxCount)
    }

    method Find(codeLine: int) returns (r: Option<T>)
      requires Valid()
      ensures r == Abstract().Find(codeLine)
    {
      if codeLine == 0 || entries == null {
        return None;
      }
      var pos := Bisect(entries, count, codeLine);
      if pos >= count || entries[pos].codeLine != codeLine {
        MapOfLines(table, codeLine);
        return None;
      }
      MapOfAt(table, pos);
      r := Some(entries[pos].codeObject);
    }

    method Insert(codeLine: int, codeObject: T, granted: bool)
      requires Valid()
      modifies this, entries
      ensures Valid() && (entries == old(entries) || fresh(entries))
      ensures Abstract() == old(Abstract()).Insert(codeLine, codeObject, granted)
    {
      if codeLine == 0 {
        return;
      }
      if entries == null {
        if granted {
          entries := new Entry<T>[64];
          maxCount := 64;
          count := 1;
          entries[0] := Entry(codeLine, codeObject);
          table := [Entry(codeLine, codeObject)];
          FirstEntry(Entry(codeLine, codeObject));
        }
        return;
      }
      MapSize(table);
      var pos := Bisect(entries, count, codeLine);
      if pos < count && entries[pos].codeLine == codeLine {
        Replaced(table, pos, codeObject);
        entries[pos] := Entry(codeLine, codeObject);
        table := table[pos := Entry(codeLine, codeObject)];
        return;
      }
      Added(table, pos, Entry(codeLine, codeObject));
      AddAt(pos, Entry(codeLine, codeObject), granted);
    }

    /** Make room if there is none, and put the entry at pos. */
    method AddAt(pos: nat, e: Entry<T>, granted: bool)
      requires Valid() && entries != null && pos <= count && IsTable(Spliced(table, pos, e))
      modifies this, entries
      ensures Valid() && entries != null && (entries == old(entries) || fresh(entries))
      ensures var full := old(count == maxCount);
              if full && !granted then table == old(table) && maxCount == old(maxCount)
              else table == Spliced(old(table), pos, e) && maxCount == old(maxCount) + if full then CHUNK else 0
    {
      if count == maxCount {
        if !granted {
          return;
        }
        Grow();
      }
      InsertEntry(entries, count, pos, e);
      table := Spliced(table, pos, e);
      count := count + 1;
    }

    method Grow()
      requires Valid() && entries != null
      modifies this
      ensures Valid() && entries != null && fresh(entries)
      ensures count == old(count) && table == old(table) && maxCount == old(maxCount) + CHUNK
    {
      var newMax := maxCount + 64;
      entries := Realloc(entries, newMax);
      maxCount := newMax;
      assert entries[..count] == old(entries[..count]);
    }
  }

  method Realloc<T(0)>(entries: array<Entry<T>>, newMax: nat) returns (grown: array<Entry<T>>)
    requires newMax >= entries.Length
    ensures fresh(grown) && grown.Length == newMax && grown[..entries.Length] == entries[..]
  {
    grown := new Entry<T>[newMax];
    for i := 0 to entries.Length
      invariant grown[..i] == entries[..i]
    {
      grown[i] := entries[i];
    }
  }

  /** Shift the tail up by one, from the end, and write the new entry into the gap. */
  method InsertEntry<T>(entries: array<Entry<T>>, count: nat, pos: nat, e: Entry<T>)
    requires pos <= count < entries.Length
    modifies entries
    ensures entries[..count + 1] == Spliced(old(entries[..count]), pos, e)
  {
    var i := count;
    while i > pos
      invariant pos <= i <= count
      invariant forall k :: 0 <= k <= i ==> entries[k] == old(entries[k])
      invariant forall k :: i < k <= count ==> entries[k] == old(entries[k - 1])
    {
      entries[i] := entries[i - 1];
      i := i - 1;
    }
    entries[pos] := e;
  }

  lemma Replaced<T>(es: seq<Entry<T>>, pos: nat, codeObject: T)
    requires IsTable(es) && pos < |es|
    ensures var r := es[pos := Entry(es[pos].codeLine, codeObject)];
            IsTable(r) && MapOf(r) == MapOf(es)[es[pos].codeLine := codeObject]
    ensures es[pos].codeLine in MapOf(es)
  {
    MapOfAt(es, pos);
    ReplacedMap(es, pos, codeObject);
  }

  lemma {:induction false} ReplacedMap<T>(es: seq<Entry<T>>, pos: nat, codeObject: T)
    requires StrictlySorted(es) && pos < |es|
    ensures MapOf(es[pos := Entry(es[pos].codeLine, codeObject)]) == MapOf(es)[es[pos].codeLine := codeObject]
  {
    var n := |es| - 1;
    var r := es[pos := Entry(es[pos].codeLine, codeObject)];
    if pos == n {
      assert r[..n] == es[..n];
    } else {
      ReplacedMap(es[..n], pos, codeObject);
      assert r[..n] == es[..n][pos := Entry(es[pos].codeLine, codeObject)];
      assert es[pos].codeLine != es[n].codeLine;
    }
  }

  lemma FirstEntry<T>(e: Entry<T>)
    ensures MapOf([e]) == map[e.codeLine := e.codeObject]
  {
    assert [e][..0] == [];
    assert MapOf([e][..0]) == map[];
  }

  function Spliced<T>(es: seq<T>, pos: nat, e: T): (r: seq<T>)
    requires pos <= |es|
    ensures |r| == |es| + 1
    ensures forall i :: 0 <= i < |r| ==> r[i] == if i < pos then es[i] else if i == pos then e else es[i - 1]
  {
    es[..pos] + [e] + es[pos..]
  }

  lemma {:induction false} SplicedMap<T>(es: seq<Entry<T>>, pos: nat, e: Entry<T>)
    requires pos <= |es| && forall i :: 0 <= i < |es| ==> es[i].codeLine != e.codeLine
    ensures MapOf(Spliced(es, pos, e)) == MapOf(es)[e.codeLine := e.codeObject]
  {
    var n := |es|;
    var r := Spliced(es, pos, e);
    if pos == n {
      assert r[..n] == es;
    } else {
      SplicedMap(es[..n - 1], pos, e);
      assert r[..n] == Spliced(es[..n - 1], pos, e);
    }
  }

  lemma Added<T>(es: seq<Entry<T>>, pos: nat, e: Entry<T>)
    requires IsTable(es) && IsLowerBound(es, e.codeLine, pos) && e.codeLine != 0
    requires pos < |es| ==> es[pos].codeLine != e.codeLine
    ensures IsTable(Spliced(es, pos, e))
    ensures MapOf(Spliced(es, pos, e)) == MapOf(es)[e.codeLine := e.codeObject]
    ensures e.codeLine !in MapOf(es)
  {
    MapOfLines(es, e.codeLine);
    SplicedMap(es, pos, e);
    SplicedSorted(es, pos, e);
  }

  lemma SplicedSorted<T>(es: seq<Entry<T>>, pos: nat, e: Entry<T>)
    requires StrictlySorted(es) && pos <= |es|
    requires forall i :: 0 <= i < pos ==> es[i].codeLine < e.codeLine
    requires forall i :: pos <= i < |es| ==> e.codeLine <= es[i].codeLine
    requires pos < |es| ==> es[pos].codeLine != e.codeLine
    ensures StrictlySorted(Spliced(es, pos, e))
  {
    var r := Spliced(es, pos, e);
    forall i, j | 0 <= i < j < |r| ensures r[i].codeLine < r[j].codeLine {
      if j < pos || i > pos {
        assert r[i] == es[if i < pos then i else i - 1] && r[j] == es[if j < pos then j else j - 1];
      } else if i < pos {
        assert r[i] == es[i] && (j == pos || r[j] == es[j - 1]);
      } else {
        assert r[j] == es[j - 1] && (j - 1 == pos || es[pos].codeLine < es[j - 1].codeLine);
      }
    }
  }

  // ---------- whole histories ----------

  datatype Op<T> = InsertOp(codeLine: int, codeObject: T, granted: bool) | FindOp(codeLine: int)

  /** The specified state after a history that starts with an empty cache. */
  function After<T>(ops: seq<Op<T>>): State<T>
  {
    if ops == [] then State(map[], 0) else Next(After(ops[..|ops| - 1]), ops[|ops| - 1])
  }

  function Next<T>(s: State<T>, op: Op<T>): State<T>
  {
    match op
    case InsertOp(codeLine, codeObject, granted) => s.Insert(codeLine, codeObject, granted)
    case FindOp(_) => s
  }

  lemma AfterNext<T>(ops: seq<Op<T>>, k: nat)
    requires k < |ops|
    ensures After(ops[..k + 1]) == Next(After(ops[..k]), ops[k])
  {
    assert ops[..k + 1][..k] == ops[..k];
  }

  /** The object of the last insertion at a line. */
  function LastInserted<T>(ops: seq<Op<T>>, codeLine: int): Option<T>
  {
    if ops == [] || codeLine == 0 then None
    else
      var last := ops[|ops| - 1];
      if last.InsertOp? && last.codeLine == codeLine then Some(last.codeObject)
      else LastInserted(ops[..|ops| - 1], codeLine)
  }

  /** Whatever the allocator refuses, a lookup never returns anything but the last object inserted at the line. */
  lemma {:induction false} NeverStale<T>(ops: seq<Op<T>>, codeLine: int)
    ensures After(ops).Find(codeLine) in {None, LastInserted(ops, codeLine)}
  {
    if ops != [] { NeverStale(ops[..|ops| - 1], codeLine); }
  }

  /** If no request is refused, it returns exactly that. */
  lemma {:induction false} FindsLastInserted<T>(ops: seq<Op<T>>, codeLine: int)
    requires forall op :: op in ops && op.InsertOp? ==> op.granted
    ensures After(ops).Find(codeLine) == LastInserted(ops, codeLine)
  {
    if ops != [] { FindsLastInserted(ops[..|ops| - 1], codeLine); }
  }

  /** The cache itself, driven through any history, answers every lookup as the specification does. */
  method Replay<T(0)>(ops: seq<Op<T>>) returns (found: seq<Option<T>>)
    ensures |found| == |ops|
    ensures forall k :: 0 <= k < |ops| && ops[k].FindOp? ==> found[k] == After(ops[..k]).Find(ops[k].codeLine)
  {
    var cache := new Cache<T>();
    found := [];
    assert ops[..0] == [];
    for k := 0 to |ops|
      invariant cache.Valid() && fresh(cache) && (cache.entries == null || fresh(cache.entries))
      invariant cache.Abstract() == After(ops[..k])
      invariant |found| == k
      invariant forall j :: 0 <= j < k && ops[j].FindOp? ==> found[j] == After(ops[..j]).Find(ops[j].codeLine)
    {
      AfterNext(ops, k);
      match ops[k]
      case InsertOp(codeLine, codeObject, granted) =>
        cache.Insert(codeLine, codeObject, granted);
        found := found + [None];
      case FindOp(codeLine) =>
        var r := cache.Find(codeLine);
        found := found + [r];
    }
  }
}
