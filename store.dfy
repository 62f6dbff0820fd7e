/** The variable store: a Python dict from name to value. Its insertion order matters, because
    `eval_expression` and `eval_condition` substitute variables in that order, so it is kept as a
    sequence of bindings with distinct names. */
module Store {
  import opened Text
  import opened Values

  function Names(vs: seq<Binding>): (r: seq<string>)
    ensures |r| == |vs| && forall i :: 0 <= i < |vs| ==> r[i] == vs[i].name
  {
    if vs == [] then [] else [vs[0].name] + Names(vs[1..])
  }

  /** `d.get(k)` */
  function Lookup(vs: seq<Binding>, k: string): (r: Option<Value>)
  {
    if vs == [] then None
    else if vs[0].name == k then Some(vs[0].value)
    else Lookup(vs[1..], k)
  }

  /** `k in d` */
  predicate Has(vs: seq<Binding>, k: string) { Lookup(vs, k).Some? }

  /** A name is bound exactly when it is among the names. */
  lemma {:induction false} HasNames(vs: seq<Binding>, k: string)
    ensures Has(vs, k) <==> k in Names(vs)
  {
    if vs != [] {
      HasNames(vs[1..], k);
      assert Names(vs) == [vs[0].name] + Names(vs[1..]);
    }
  }

  /** `d[k] = v` */
  function Put(vs: seq<Binding>, k: string, v: Value): (r: seq<Binding>)
    ensures Lookup(r, k) == Some(v)
    ensures forall j :: j != k ==> Lookup(r, j) == Lookup(vs, j)
    decreases |vs|
  {
    if vs == [] then [Binding(k, v)]
    else if vs[0].name == k then [Binding(k, v)] + vs[1..]
    else [vs[0]] + Put(vs[1..], k, v)
  }

  /** An existing name keeps its place under assignment; a new name goes last. */
  lemma {:induction false} PutNames(vs: seq<Binding>, k: string, v: Value)
    ensures Names(Put(vs, k, v)) == if Has(vs, k) then Names(vs) else Names(vs) + [k]
    decreases |vs|
  {
    if vs != [] {
      var r := Put(vs, k, v);
      assert Names(vs) == [vs[0].name] + Names(vs[1..]);
      if vs[0].name == k {
        assert Names(r) == [k] + Names(vs[1..]);
      } else {
        PutNames(vs[1..], k, v);
        assert Names(r) == [vs[0].name] + Names(Put(vs[1..], k, v));
      }
    }
  }

  /** No name is bound twice: the shape of a dict. */
  predicate Unique(vs: seq<Binding>)
    decreases |vs|
  {
    vs == [] || (!Has(vs[1..], vs[0].name) && Unique(vs[1..]))
  }

  /** Assignment keeps the names distinct. */
  lemma {:induction false} PutUnique(vs: seq<Binding>, k: string, v: Value)
    requires Unique(vs)
    ensures Unique(Put(vs, k, v))
    decreases |vs|
  {
    if vs != [] && vs[0].name != k {
      PutUnique(vs[1..], k, v);
      var r := Put(vs, k, v);
      assert r[1..] == Put(vs[1..], k, v);
    }
  }

  /** A second assignment to a name overwrites the first in place: the name keeps its
      position, as a dict key does. */
  lemma {:induction false} PutTwice(vs: seq<Binding>, k: string, a: Value, b: Value)
    ensures Put(Put(vs, k, a), k, b) == Put(vs, k, b)
    decreases |vs|
  {
    if vs != [] && vs[0].name != k {
      PutTwice(vs[1..], k, a, b);
      var once := Put(vs, k, a);
      assert once == [vs[0]] + Put(vs[1..], k, a);
      assert once[1..] == Put(vs[1..], k, a);
    }
  }

  /** Assigns each binding in order, as a module handler's writes do. */
  function PutAll(vs: seq<Binding>, writes: seq<Binding>): (r: seq<Binding>)
    ensures Unique(vs) ==> Unique(r)
    decreases |writes|
  {
    if writes == [] then vs
    else
      var next := Put(vs, writes[0].name, writes[0].value);
      assert Unique(vs) ==> Unique(next) by {
        if Unique(vs) { PutUnique(vs, writes[0].name, writes[0].value); }
      }
      PutAll(next, writes[1..])
  }

  /** How a value is written into a text by a substitution loop: `str(v)`, or for
      `eval_condition` a string in double quotes. */
  function Render(v: Value, quoteStrings: bool): (r: string)
  {
    if quoteStrings && v.StrV? then "\"" + v.s + "\"" else Show(v)
  }

  /** `for name, value in d.items(): text = text.replace(name, render(value))` */
  function Substitute(text: string, vs: seq<Binding>, quoteStrings: bool): (r: string)
    decreases |vs|
  {
    if vs == [] then text
    else Substitute(Replace(text, vs[0].name, Render(vs[0].value, quoteStrings)), vs[1..], quoteStrings)
  }

  /** A text in which no variable name occurs comes out of the substitution loop unchanged. */
  lemma {:induction false} SubstituteNoNames(text: string, vs: seq<Binding>, quoteStrings: bool)
    requires forall i :: 0 <= i < |vs| ==> vs[i].name != [] && !Contains(text, vs[i].name)
    ensures Substitute(text, vs, quoteStrings) == text
    decreases |vs|
  {
    if vs != [] {
      ReplaceAbsent(text, vs[0].name, Render(vs[0].value, quoteStrings));
      SubstituteNoNames(text, vs[1..], quoteStrings);
    }
  }
}
