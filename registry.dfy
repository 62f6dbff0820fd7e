/** Extension modules (sifzz.py:77-95, 255-271): each module object keeps a dictionary from a
    regular-expression pattern to a handler and a description, filled by `register` while the
    module is constructed. The interpreter consults the modules in load order and each module's
    dictionary in insertion order. */
module Registry {
  import opened Text
  import opened Values

  /** One entry of a module's `commands` dictionary. The handler is named, and what it does is
      the host's `runHandler`. */
  datatype Entry = Entry(pattern: string, handler: string, description: string)

  /** The position of `pattern` among the keys, if it is one. */
  function IndexOf(cs: seq<Entry>, pattern: string): (r: Option<nat>)
    ensures r.Some? ==> r.value < |cs| && cs[r.value].pattern == pattern
    ensures r.Some? ==> forall j :: 0 <= j < r.value ==> cs[j].pattern != pattern
    ensures r.None? ==> forall j :: 0 <= j < |cs| ==> cs[j].pattern != pattern
    decreases |cs|
  {
    if cs == [] then None
    else if cs[0].pattern == pattern then Some(0)
    else match IndexOf(cs[1..], pattern)
      case None => None
      case Some(k) => Some(k + 1)
  }

  /** `commands.get(pattern)` */
  function Find(cs: seq<Entry>, pattern: string): Option<Entry>
  {
    match IndexOf(cs, pattern)
    case None => None
    case Some(k) => Some(cs[k])
  }

  /** No pattern is a key twice: the shape of a dictionary. */
  predicate Keyed(cs: seq<Entry>)
  {
    forall i, j :: 0 <= i < j < |cs| ==> cs[i].pattern != cs[j].pattern
  }

  /** `commands[pattern] = {...}`: a known pattern keeps its place and gets the new handler and
      description; a new pattern goes last. */
  function Registered(cs: seq<Entry>, pattern: string, handler: string, description: string): (r: seq<Entry>)
    ensures Find(r, pattern) == Some(Entry(pattern, handler, description))
    ensures forall q :: q != pattern ==> Find(r, q) == Find(cs, q)
    ensures |r| == if Find(cs, pattern).Some? then |cs| else |cs| + 1
    ensures forall j :: 0 <= j < |cs| ==> r[j].pattern == cs[j].pattern
  {
    var e := Entry(pattern, handler, description);
    match IndexOf(cs, pattern)
    case Some(k) =>
      var r := cs[k := e];
      assert forall q :: IndexOf(r, q) == IndexOf(cs, q) by {
        forall q { SameKeys(r, cs, q); }
      }
      r
    case None =>
      var r := cs + [e];
      assert r[..|cs|] == cs && r[|cs|] == e;
      forall q | q != pattern
        ensures IndexOf(r, q) == IndexOf(cs, q)
      {
        KeyPrefix(r, |cs|, q);
      }
      assert forall j :: 0 <= j < |cs| ==> r[j] == cs[j];
      r
  }

  /** Two tables with the same keys in the same order place every key alike. */
  lemma {:induction false} SameKeys(a: seq<Entry>, b: seq<Entry>, q: string)
    requires |a| == |b| && forall j :: 0 <= j < |a| ==> a[j].pattern == b[j].pattern
    ensures IndexOf(a, q) == IndexOf(b, q)
  {
    var ra, rb := IndexOf(a, q), IndexOf(b, q);
    if ra.Some? && rb.Some? {
      assert !(ra.value < rb.value) && !(rb.value < ra.value);
    }
  }

  /** A key found among the first `n` entries is found there in the whole table, and one
      missing there is found at or after `n`. */
  lemma {:induction false} KeyPrefix(a: seq<Entry>, n: nat, q: string)
    requires n <= |a| && (forall j :: n <= j < |a| ==> a[j].pattern != q)
    ensures IndexOf(a, q) == IndexOf(a[..n], q)
  {
    var ra, rb := IndexOf(a, q), IndexOf(a[..n], q);
    if ra.Some? && rb.Some? {
      assert !(ra.value < rb.value) && !(rb.value < ra.value);
    }
  }

  /** A table whose patterns are distinct stays so under registration. */
  lemma {:induction false} RegisteredKeyed(cs: seq<Entry>, pattern: string, handler: string, description: string)
    requires Keyed(cs)
    ensures Keyed(Registered(cs, pattern, handler, description))
  {
  }

  /** Registering a pattern twice keeps the second handler, at the first one's place. */
  lemma {:induction false} ReRegister(cs: seq<Entry>, pattern: string, h1: string, d1: string, h2: string, d2: string)
    ensures Registered(Registered(cs, pattern, h1, d1), pattern, h2, d2) == Registered(cs, pattern, h2, d2)
  {
  }

  /** The table built by registering `entries` one after another into `cs`. */
  function RegisterAll(cs: seq<Entry>, entries: seq<Entry>): (r: seq<Entry>)
    ensures Keyed(cs) ==> Keyed(r)
    decreases |entries|
  {
    if entries == [] then cs
    else
      var next := Registered(cs, entries[0].pattern, entries[0].handler, entries[0].description);
      assert Keyed(cs) ==> Keyed(next) by {
        if Keyed(cs) { RegisteredKeyed(cs, entries[0].pattern, entries[0].handler, entries[0].description); }
      }
      RegisterAll(next, entries[1..])
  }

  /** `SifzzModule`: a module object and its command dictionary. */
  class SifzzModule {
    var commands: seq<Entry>

    predicate Valid()
      reads this
    {
      Keyed(commands)
    }

    /** `__init__`, whose `register_commands` registers `entries` in order. */
    constructor (entries: seq<Entry>)
      ensures commands == RegisterAll([], entries)
      ensures Valid()
    {
      commands := [];
      new;
      var k := 0;
      while k < |entries|
        invariant 0 <= k <= |entries|
        invariant RegisterAll(commands, entries[k..]) == RegisterAll([], entries)
        invariant Valid()
      {
        assert entries[k..][1..] == entries[k + 1..];
        Register(entries[k].pattern, entries[k].handler, entries[k].description);
        k := k + 1;
      }
    }

    /** `register(pattern, handler, description)` */
    method Register(pattern: string, handler: string, description: string)
      requires Valid()
      modifies this
      ensures commands == Registered(old(commands), pattern, handler, description)
      ensures Valid()
    {
      RegisteredKeyed(commands, pattern, handler, description);
      commands := Registered(commands, pattern, handler, description);
    }
  }

  /** Where a line first matches: module `m`, its entry `e`, and the groups of the match. */
  datatype Hit = Hit(m: nat, e: nat, groups: seq<string>)

  /** Pattern `e` of module `m` matches the line. */
  predicate Matches(tables: seq<seq<Entry>>, m: nat, e: nat, line: string, host: Host)
  {
    m < |tables| && e < |tables[m]| && host.reMatch(tables[m][e].pattern, line).Some?
  }

  /** The first entry of `table`, from `e` on, whose pattern matches. */
  function FirstIn(tables: seq<seq<Entry>>, m: nat, e: nat, line: string, host: Host): (r: Option<nat>)
    requires m < |tables| && e <= |tables[m]|
    ensures r.Some? ==> e <= r.value && Matches(tables, m, r.value, line, host)
    ensures r.Some? ==> forall k: nat :: e <= k < r.value ==> !Matches(tables, m, k, line, host)
    ensures r.None? ==> forall k: nat :: e <= k ==> !Matches(tables, m, k, line, host)
    decreases |tables[m]| - e
  {
    if e == |tables[m]| then None
    else if host.reMatch(tables[m][e].pattern, line).Some? then Some(e)
    else FirstIn(tables, m, e + 1, line, host)
  }

  /** The first matching pattern over the modules from `m` on, in load order, and the groups
      of its match. */
  function FirstMatch(tables: seq<seq<Entry>>, m: nat, line: string, host: Host): (r: Option<Hit>)
    requires m <= |tables|
    ensures r.Some? ==> m <= r.value.m && Matches(tables, r.value.m, r.value.e, line, host)
    ensures r.Some? ==> host.reMatch(tables[r.value.m][r.value.e].pattern, line) == Some(r.value.groups)
    ensures r.Some? ==> forall i: nat, k: nat :: m <= i < r.value.m ==> !Matches(tables, i, k, line, host)
    ensures r.Some? ==> forall k: nat :: k < r.value.e ==> !Matches(tables, r.value.m, k, line, host)
    ensures r.None? ==> forall i: nat, k: nat :: m <= i ==> !Matches(tables, i, k, line, host)
    decreases |tables| - m
  {
    if m == |tables| then None
    else match FirstIn(tables, m, 0, line, host)
      case Some(e) => Some(Hit(m, e, host.reMatch(tables[m][e].pattern, line).value))
      case None => FirstMatch(tables, m + 1, line, host)
  }
}
