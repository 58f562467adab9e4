/**
 * The persistence rules of services/storageService.ts: a key-value store with
 * two records, the entries and the reflections, each a JSON list.
 *
 * The store itself is the class `Store`; the list transformations the
 * operations apply (filters, the id set, the newest-first sort) are functions.
 */
module Storage {
  import opened Wrappers
  import opened Journal
  import opened Sequences

  /** The exceptions the storage functions let escape to their callers. */
  datatype Thrown =
    | SyntaxError  // JSON.parse of a stored record that is not valid JSON
    | TypeError    // reading a property of a null or undefined import item

  /** One key of the store: never written (or removed), a JSON list, or text that does not parse. */
  datatype Slot<T> = Absent | Holds(items: seq<T>) | Unreadable

  /** Reading a record: nothing stored reads as the empty list; unparseable text throws. */
  function Read<T>(slot: Slot<T>): (r: Result<seq<T>, Thrown>)
    ensures slot.Absent? ==> r == Ok([])
    ensures slot.Holds? ==> r == Ok(slot.items)
    ensures r.Err? <==> slot.Unreadable?
  {
    match slot
    case Absent => Ok([])
    case Holds(items) => Ok(items)
    case Unreadable => Err(SyntaxError)
  }

  // ---------------------------------------------------------------------------
  // Entries: text that may be saved

  /** The characters JavaScript's String.prototype.trim removes (white space and line terminators). */
  predicate IsTrimmedAway(c: char)
  {
    c == '\t' || c == '\n' || c == '\U{000B}' || c == '\U{000C}' || c == '\r' || c == ' '
    || c == '\U{00A0}' || c == '\U{1680}' || ('\U{2000}' <= c <= '\U{200A}')
    || c == '\U{2028}' || c == '\U{2029}' || c == '\U{202F}' || c == '\U{205F}'
    || c == '\U{3000}' || c == '\U{FEFF}'
  }

  /** Text that trims to the empty string; the entry screen refuses to save it. */
  predicate IsBlank(text: string)
  {
    forall i | 0 <= i < |text| :: IsTrimmedAway(text[i])
  }

  /** The ids of a list of entries, as the Set built before an import. */
  function Ids(entries: seq<Entry>): set<string>
  {
    set e | e in entries :: e.id
  }

  // ---------------------------------------------------------------------------
  // Entries: newest-first order

  /** Timestamps never increase along the list. */
  predicate NewestFirst(s: seq<Entry>)
  {
    forall i, j | 0 <= i < j < |s| :: s[i].timestamp.millis >= s[j].timestamp.millis
  }

  /**
   * Places `e` in front of the first element that is not newer than it, so that
   * among entries with equal timestamps the earlier one in the input stays first.
   */
  function InsertNewestFirst(e: Entry, s: seq<Entry>): (r: seq<Entry>)
    ensures multiset(r) == multiset(s) + multiset{e}
    ensures r[0] == e || (s != [] && r[0] == s[0])
  {
    if s == [] || s[0].timestamp.millis <= e.timestamp.millis then [e] + s
    else
      assert s == [s[0]] + s[1..];
      [s[0]] + InsertNewestFirst(e, s[1..])
  }

  lemma {:induction false} InsertKeepsNewestFirst(e: Entry, s: seq<Entry>)
    requires NewestFirst(s)
    ensures NewestFirst(InsertNewestFirst(e, s))
  {
    if s != [] && s[0].timestamp.millis > e.timestamp.millis {
      var tail := InsertNewestFirst(e, s[1..]);
      InsertKeepsNewestFirst(e, s[1..]);
      var top := s[0].timestamp.millis;
      assert tail[0].timestamp.millis <= top by {
        if tail[0] != e {
          assert tail[0] == s[1];
        }
      }
      var r := [s[0]] + tail;
      forall i, j | 0 <= i < j < |r| ensures r[i].timestamp.millis >= r[j].timestamp.millis {
        assert r[j] == tail[j - 1];
        if i > 0 {
          assert r[i] == tail[i - 1];
        } else if j > 1 {
          assert tail[0].timestamp.millis >= tail[j - 1].timestamp.millis;
        }
      }
    }
  }

  /**
   * The stable sort by timestamp, newest first, that the comparator
   * `new Date(b.timestamp) - new Date(a.timestamp)` gives.
   */
  function SortNewestFirst(s: seq<Entry>): (r: seq<Entry>)
    ensures multiset(r) == multiset(s)
    ensures |r| == |s|
    ensures NewestFirst(r)
  {
    if s == [] then []
    else
      assert s == [s[0]] + s[1..];
      var rest := SortNewestFirst(s[1..]);
      InsertKeepsNewestFirst(s[0], rest);
      InsertNewestFirst(s[0], rest)
  }

  /** The entries of `s` stamped at instant `t`, in their order. */
  function AtInstant(s: seq<Entry>, t: int): seq<Entry>
  {
    if s == [] then []
    else (if s[0].timestamp.millis == t then [s[0]] else []) + AtInstant(s[1..], t)
  }

  lemma {:induction false} InsertIsStable(e: Entry, s: seq<Entry>, t: int)
    ensures AtInstant(InsertNewestFirst(e, s), t) ==
      if e.timestamp.millis == t then [e] + AtInstant(s, t) else AtInstant(s, t)
  {
    if s == [] || s[0].timestamp.millis <= e.timestamp.millis {
      assert ([e] + s)[1..] == s;
    } else {
      var tail := InsertNewestFirst(e, s[1..]);
      InsertIsStable(e, s[1..], t);
      assert ([s[0]] + tail)[1..] == tail;
    }
  }

  /** The sort is stable: entries with the same timestamp keep their relative order. */
  lemma {:induction false} SortIsStable(s: seq<Entry>, t: int)
    ensures AtInstant(SortNewestFirst(s), t) == AtInstant(s, t)
  {
    if s != [] {
      SortIsStable(s[1..], t);
      InsertIsStable(s[0], SortNewestFirst(s[1..]), t);
    }
  }

  /** Prepending an entry no older than the current newest keeps the list newest-first. */
  lemma PrependKeepsNewestFirst(e: Entry, s: seq<Entry>)
    requires NewestFirst(s)
    requires s != [] ==> s[0].timestamp.millis <= e.timestamp.millis
    ensures NewestFirst([e] + s)
  {
  }

  // ---------------------------------------------------------------------------
  // Entries: import

  /** A property of an imported item: a string, or anything else (missing, a number, an object...). */
  datatype Field<T> = Str(value: T) | NotString

  /** One element of an imported JSON array: `null`/`undefined`, or any other value. */
  datatype Candidate =
    | Nullish
    | Object(id: Field<string>, timestamp: Field<Timestamp>, text: Field<string>)

  /** The parsed import file: a JSON array, or some other JSON value. */
  datatype ImportData = NotArray | Array(items: seq<Candidate>)

  /** An item with string `id`, `timestamp` and `text`: the shape check of the import. */
  predicate HasEntryShape(c: Candidate)
  {
    c.Object? && c.id.Str? && c.timestamp.Str? && c.text.Str?
  }

  /** The import item that carries exactly the fields of `e`. */
  function AsCandidate(e: Entry): Candidate
  {
    Object(Str(e.id), Str(e.timestamp), Str(e.text))
  }

  /**
   * The items that pass the shape check, as entries, in their order. Duplicates
   * are kept: every entry appears as often as its item does.
   */
  function ValidEntries(items: seq<Candidate>): (r: seq<Entry>)
    ensures forall e :: e in r <==> AsCandidate(e) in items
    ensures forall e :: multiset(r)[e] == multiset(items)[AsCandidate(e)]
  {
    if items == [] then []
    else
      var c := items[0];
      var rest := ValidEntries(items[1..]);
      assert items == [c] + items[1..];
      if HasEntryShape(c) then
        assert c == AsCandidate(Entry(c.id.value, c.timestamp.value, c.text.value));
        [Entry(c.id.value, c.timestamp.value, c.text.value)] + rest
      else
        rest
  }

  /** The shape filter keeps input order: the kept items of a concatenation are those of each part, in turn. */
  lemma {:induction false} ValidEntriesAppend(a: seq<Candidate>, b: seq<Candidate>)
    ensures ValidEntries(a + b) == ValidEntries(a) + ValidEntries(b)
    decreases |a|
  {
    if a == [] {
      assert a + b == b;
    } else {
      var c := a[0];
      assert (a + b)[0] == c && (a + b)[1..] == a[1..] + b;
      ValidEntriesAppend(a[1..], b);
      if HasEntryShape(c) {
        var head := [Entry(c.id.value, c.timestamp.value, c.text.value)];
        assert ValidEntries(a + b) == head + ValidEntries(a[1..] + b);
        assert ValidEntries(a) == head + ValidEntries(a[1..]);
        assert head + (ValidEntries(a[1..]) + ValidEntries(b)) == (head + ValidEntries(a[1..])) + ValidEntries(b);
      }
    }
  }

  /** The entries whose id is not among `known`, in their order, duplicates kept. */
  function FreshEntries(valid: seq<Entry>, known: set<string>): (r: seq<Entry>)
    ensures forall e :: e in r <==> e in valid && e.id !in known
    ensures forall e :: multiset(r)[e] == if e.id in known then 0 else multiset(valid)[e]
    ensures IsSubsequence(r, valid)
    ensures r == [] <==> forall e | e in valid :: e.id in known
  {
    if valid == [] then []
    else
      var rest := FreshEntries(valid[1..], known);
      assert valid == [valid[0]] + valid[1..];
      if valid[0].id !in known then [valid[0]] + rest else rest
  }

  /** Reference count: the items that have the entry shape and an id not among `known`. */
  function CountNew(items: seq<Candidate>, known: set<string>): nat
  {
    if items == [] then 0
    else (if HasEntryShape(items[0]) && items[0].id.value !in known then 1 else 0)
         + CountNew(items[1..], known)
  }

  /** The number of entries an import adds is the number of well-shaped items with an unknown id. */
  lemma {:induction false} FreshCountMatches(items: seq<Candidate>, known: set<string>)
    ensures |FreshEntries(ValidEntries(items), known)| == CountNew(items, known)
  {
    if items != [] {
      FreshCountMatches(items[1..], known);
      var c := items[0];
      var rest := ValidEntries(items[1..]);
      if HasEntryShape(c) {
        var e := Entry(c.id.value, c.timestamp.value, c.text.value);
        assert ValidEntries(items) == [e] + rest;
        assert ([e] + rest)[1..] == rest;
      } else {
        assert ValidEntries(items) == rest;
      }
    }
  }

  /** What an import does: the number it returns (or the exception it throws), and the list it writes, if any. */
  datatype ImportEffect = ImportEffect(returned: Result<nat, Thrown>, written: Option<seq<Entry>>)

  /**
   * The import rules: refuse a non-array, throw on a null item, keep the
   * well-shaped items, drop those whose id is already stored, and write the
   * rest merged with the stored entries, newest first.
   */
  function ImportOutcome(data: ImportData, stored: Slot<Entry>): (r: ImportEffect)
    ensures r.written.Some? <==> r.returned.Ok? && r.returned.value > 0
    ensures r.returned == Err(TypeError) <==> data.Array? && Nullish in data.items
    ensures r.returned == Err(SyntaxError) ==> stored.Unreadable?
    ensures data.Array? && Nullish !in data.items && ValidEntries(data.items) != [] && stored.Unreadable?
      ==> r == ImportEffect(Err(SyntaxError), None)
    ensures r.written.Some? ==>
      data.Array? && Read(stored).Ok? &&
      var current := Read(stored).value;
      var w := r.written.value;
      NewestFirst(w) &&
      |w| == |current| + r.returned.value &&
      multiset(w) == multiset(FreshEntries(ValidEntries(data.items), Ids(current))) + multiset(current)
  {
    match data
    case NotArray => ImportEffect(Ok(0), None)
    case Array(items) =>
      if Nullish in items then ImportEffect(Err(TypeError), None)
      else
        var valid := ValidEntries(items);
        if valid == [] then ImportEffect(Ok(0), None)
        else
          (match Read(stored)
           case Err(e) => ImportEffect(Err(e), None)
           case Ok(current) =>
             (var incoming := FreshEntries(valid, Ids(current));
              if incoming == [] then ImportEffect(Ok(0), None)
              else ImportEffect(Ok(|incoming|), Some(SortNewestFirst(incoming + current)))))
  }

  /**
   * An import returns 0 and writes nothing when the data is not an array, when
   * no item has the entry shape, or when every well-shaped item's id is stored.
   */
  lemma ImportAddsNothing(data: ImportData, stored: Slot<Entry>)
    requires
      || data.NotArray?
      || (data.Array? && Nullish !in data.items && ValidEntries(data.items) == [])
      || (data.Array? && Nullish !in data.items && Read(stored).Ok? &&
          forall i | 0 <= i < |data.items| && HasEntryShape(data.items[i]) ::
            data.items[i].id.value in Ids(Read(stored).value))
    ensures ImportOutcome(data, stored) == ImportEffect(Ok(0), None)
  {
    if data.Array? && Nullish !in data.items && Read(stored).Ok? && ValidEntries(data.items) != [] {
      forall e | e in ValidEntries(data.items) ensures e.id in Ids(Read(stored).value) {
        var i :| 0 <= i < |data.items| && data.items[i] == AsCandidate(e);
        assert HasEntryShape(data.items[i]);
      }
    }
  }

  /**
   * When the stored entries can be read and the data has no null item, the
   * count an import returns is the number of well-shaped items whose id is not
   * stored; duplicates inside the imported list are each counted.
   */
  lemma ImportCount(items: seq<Candidate>, stored: Slot<Entry>)
    requires Nullish !in items && Read(stored).Ok?
    ensures ImportOutcome(Array(items), stored).returned == Ok(CountNew(items, Ids(Read(stored).value)))
  {
    FreshCountMatches(items, Ids(Read(stored).value));
    if ValidEntries(items) == [] {
      assert FreshEntries([], Ids(Read(stored).value)) == [];
    }
  }

  /** The ids of a merged list are the ids of its parts. */
  lemma IdsOfMerge(merged: seq<Entry>, a: seq<Entry>, b: seq<Entry>)
    requires multiset(merged) == multiset(a) + multiset(b)
    ensures Ids(merged) == Ids(a) + Ids(b)
  {
    forall id | id in Ids(merged) ensures id in Ids(a) + Ids(b) {
      var e :| e in merged && e.id == id;
      assert e in multiset(merged);
    }
    forall id | id in Ids(a) + Ids(b) ensures id in Ids(merged) {
      if id in Ids(a) {
        var e :| e in a && e.id == id;
        assert e in multiset(merged);
      } else {
        var e :| e in b && e.id == id;
        assert e in multiset(merged);
      }
    }
  }

  /** Importing the same data again right after an import that added entries adds nothing. */
  lemma ReimportAddsNothing(data: ImportData, stored: Slot<Entry>)
    requires ImportOutcome(data, stored).written.Some?
    ensures ImportOutcome(data, Holds(ImportOutcome(data, stored).written.value)) == ImportEffect(Ok(0), None)
  {
    var current := Read(stored).value;
    var valid := ValidEntries(data.items);
    var incoming := FreshEntries(valid, Ids(current));
    var merged := ImportOutcome(data, stored).written.value;
    IdsOfMerge(merged, incoming, current);
    assert FreshEntries(valid, Ids(merged)) == [];
  }

  /** Two copies of one new entry in the same import are both counted and both stored. */
  lemma BatchDuplicatesAreKept(e: Entry)
    ensures ImportOutcome(Array([AsCandidate(e), AsCandidate(e)]), Absent).returned == Ok(2)
  {
    var items := [AsCandidate(e), AsCandidate(e)];
    var none: seq<Entry> := [];
    assert Read<Entry>(Absent) == Ok(none) && Ids(none) == {};
    ImportCount(items, Absent);
    assert HasEntryShape(AsCandidate(e)) && e.id !in Ids(none);
    assert items[1..] == [AsCandidate(e)] && items[1..][1..] == [];
    assert CountNew(items[1..][1..], Ids(none)) == 0;
    assert CountNew(items[1..], Ids(none)) == 1;
    assert CountNew(items, Ids(none)) == 2;
  }

  // ---------------------------------------------------------------------------
  // Reflections: upsert by kind

  /** The reflections of every kind but `kind`, in their order. */
  function WithoutKind(rs: seq<Reflection>, kind: ReflectionKind): (r: seq<Reflection>)
    ensures forall x :: x in r <==> x in rs && x.kind != kind
    ensures forall x :: multiset(r)[x] == if x.kind == kind then 0 else multiset(rs)[x]
    ensures IsSubsequence(r, rs)
  {
    if rs == [] then []
    else
      var rest := WithoutKind(rs[1..], kind);
      assert rs == [rs[0]] + rs[1..];
      if rs[0].kind != kind then [rs[0]] + rest else rest
  }

  /** The new list after saving `incoming`: it goes first, and replaces every reflection of its kind. */
  function Upsert(rs: seq<Reflection>, incoming: Reflection): (r: seq<Reflection>)
    ensures |r| >= 1 && r[0] == incoming
    ensures forall i | 0 <= i < |r| :: r[i].kind == incoming.kind <==> i == 0
    ensures forall x: Reflection :: x.kind != incoming.kind ==> (x in r <==> x in rs)
    ensures forall x: Reflection :: x.kind != incoming.kind ==> multiset(r)[x] == multiset(rs)[x]
    ensures IsSubsequence(r[1..], rs)
  {
    var kept := WithoutKind(rs, incoming.kind);
    var r := [incoming] + kept;
    assert r[1..] == kept;
    assert forall i | 0 <= i < |r| :: r[i].kind == incoming.kind <==> i == 0 by {
      forall i | 1 <= i < |r| ensures r[i].kind != incoming.kind {
        assert r[i] == kept[i - 1];
      }
    }
    assert forall x: Reflection :: x.kind != incoming.kind ==> multiset(r)[x] == multiset(rs)[x] by {
      assert multiset(r) == multiset{incoming} + multiset(kept);
    }
    r
  }

  /**
   * The invariant the reflections record is meant to keep, at most one
   * reflection per kind: no later reflection shares the first one's kind, and
   * the same holds of the rest.
   */
  ghost predicate AtMostOnePerKind(rs: seq<Reflection>)
  {
    rs == [] || ((forall x | x in rs[1..] :: x.kind != rs[0].kind) && AtMostOnePerKind(rs[1..]))
  }

  lemma {:induction false} WithoutKindKeepsOnePerKind(rs: seq<Reflection>, kind: ReflectionKind)
    requires AtMostOnePerKind(rs)
    ensures AtMostOnePerKind(WithoutKind(rs, kind))
  {
    if rs != [] {
      WithoutKindKeepsOnePerKind(rs[1..], kind);
      var rest := WithoutKind(rs[1..], kind);
      if rs[0].kind != kind {
        assert ([rs[0]] + rest)[1..] == rest;
      }
    }
  }

  /** Saving a reflection keeps at most one reflection per kind. */
  lemma UpsertKeepsOnePerKind(rs: seq<Reflection>, incoming: Reflection)
    requires AtMostOnePerKind(rs)
    ensures AtMostOnePerKind(Upsert(rs, incoming))
  {
    WithoutKindKeepsOnePerKind(rs, incoming.kind);
    assert Upsert(rs, incoming)[1..] == WithoutKind(rs, incoming.kind);
  }

  // ---------------------------------------------------------------------------
  // The store

  /** The browser's key-value store, reduced to the two records the journal uses. */
  class Store {
    var entries: Slot<Entry>
    var reflections: Slot<Reflection>

    /** A store in which nothing has been written yet. */
    constructor ()
      ensures entries == Absent && reflections == Absent
    {
      entries := Absent;
      reflections := Absent;
    }

    /** The stored entries; the empty list when nothing is stored; throws on unparseable text. */
    function GetEntries(): (r: Result<seq<Entry>, Thrown>)
      reads this
      ensures entries.Absent? ==> r == Ok([])
      ensures entries.Holds? ==> r == Ok(entries.items)
      ensures r.Err? <==> entries.Unreadable?
    {
      Read(entries)
    }

    /** The stored reflections; the empty list when nothing is stored; throws on unparseable text. */
    function GetReflections(): (r: Result<seq<Reflection>, Thrown>)
      reads this
      ensures reflections.Absent? ==> r == Ok([])
      ensures reflections.Holds? ==> r == Ok(reflections.items)
      ensures r.Err? <==> reflections.Unreadable?
    {
      Read(reflections)
    }

    /**
     * Saves `text`, exactly as given, as a new entry in front of the stored ones
     * and returns it. `id` stands for a fresh random UUID and `now` for the clock.
     */
    method SaveEntry(id: string, now: Timestamp, text: string) returns (r: Result<Entry, Thrown>)
      requires !IsBlank(text)
      requires entries.Holds? ==> id !in Ids(entries.items)
      modifies this
      ensures reflections == old(reflections)
      ensures old(GetEntries()).Ok? ==>
        && r == Ok(Entry(id, now, text))
        && entries == Holds([r.value] + old(GetEntries()).value)
        && r.value.id !in Ids(old(GetEntries()).value)
      ensures old(GetEntries()).Err? ==> r == Err(SyntaxError) && entries == old(entries)
    {
      var current := GetEntries();
      match current {
        case Err(e) =>
          r := Err(e);
        case Ok(stored) =>
          var entry := Entry(id, now, text);
          entries := Holds([entry] + stored);
          r := Ok(entry);
      }
    }

    /** Removes both records. */
    method ClearAllData()
      modifies this
      ensures entries == Absent && reflections == Absent
      ensures GetEntries() == Ok([]) && GetReflections() == Ok([])
    {
      entries := Absent;
      reflections := Absent;
    }

    /**
     * Saves a new reflection of `kind` with the given questions in front of the
     * stored ones, dropping every stored reflection of the same kind, and
     * returns it. `id` stands for a fresh random UUID and `now` for the clock.
     */
    method SaveReflection(id: string, now: Timestamp, patterns: seq<string>, kind: ReflectionKind)
      returns (r: Result<Reflection, Thrown>)
      modifies this
      ensures entries == old(entries)
      ensures old(GetReflections()).Ok? ==>
        && r == Ok(Reflection(id, now, patterns, kind))
        && reflections == Holds(Upsert(old(GetReflections()).value, r.value))
      ensures old(GetReflections()).Err? ==> r == Err(SyntaxError) && reflections == old(reflections)
      ensures old(reflections).Absent? || (old(reflections).Holds? && AtMostOnePerKind(old(reflections).items)) ==>
        reflections.Holds? && AtMostOnePerKind(reflections.items)
    {
      var current := GetReflections();
      match current {
        case Err(e) =>
          r := Err(e);
        case Ok(stored) =>
          var reflection := Reflection(id, now, patterns, kind);
          if AtMostOnePerKind(stored) {
            UpsertKeepsOnePerKind(stored, reflection);
          }
          reflections := Holds(Upsert(stored, reflection));
          r := Ok(reflection);
      }
    }

    /**
     * Imports a parsed export file and returns how many entries it added;
     * what it returns and writes is `ImportOutcome`.
     */
    method ImportEntries(data: ImportData) returns (added: Result<nat, Thrown>)
      modifies this
      ensures reflections == old(reflections)
      ensures added == ImportOutcome(data, old(entries)).returned
      ensures ImportOutcome(data, old(entries)).written.Some? ==>
        entries == Holds(ImportOutcome(data, old(entries)).written.value)
      ensures ImportOutcome(data, old(entries)).written.None? ==> entries == old(entries)
    {
      if data.NotArray? {
        return Ok(0);
      }
      if Nullish in data.items {
        return Err(TypeError);
      }
      var valid := ValidEntries(data.items);
      if |valid| == 0 {
        return Ok(0);
      }
      var read := GetEntries();
      if read.Err? {
        return Err(read.error);
      }
      var current := read.value;
      var currentIds := Ids(current);
      var incoming := FreshEntries(valid, currentIds);
      if |incoming| == 0 {
        return Ok(0);
      }
      entries := Holds(SortNewestFirst(incoming + current));
      return Ok(|incoming|);
    }
  }
}
