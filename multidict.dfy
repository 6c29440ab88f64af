/**
 The request's form as the framework hands it to the handler: a multi-valued
 dictionary of the fields in the order the body lists them. `Get` is
 `request.form.get(key)` and `Items` is `request.form.items()`, which yields
 each key once, in order of first appearance, with its first value.
 */
module MultiDict {

  datatype Option<T> = None | Some(value: T)

  /** One `name=value` pair of the request body. */
  type Field = (string, string)

  /** The names that occur in `fields`. */
  function Keys(fields: seq<Field>): set<string> {
    set j | 0 <= j < |fields| :: fields[j].0
  }

  /** No name occurs twice. */
  predicate DistinctKeys(fields: seq<Field>) {
    forall i, j :: 0 <= i < j < |fields| ==> fields[i].0 != fields[j].0
  }

  /** `form.get(k)`: the value of the first field named `k`, or `None` when no
      field has that name. */
  function Get(form: seq<Field>, k: string): (r: Option<string>)
    ensures r.None? <==> k !in Keys(form)
    ensures r.Some? ==> (k, r.value) in form
  {
    if form == [] then None
    else if form[0].0 == k then Some(form[0].1)
    else
      assert Keys(form) == {form[0].0} + Keys(form[1..]) by {
        forall x | x in Keys(form) ensures x in {form[0].0} + Keys(form[1..]) {
          var j :| 0 <= j < |form| && form[j].0 == x;
          if j > 0 { assert form[1..][j - 1].0 == x; }
        }
      }
      Get(form[1..], k)
  }

  /** `get` returns the value of the FIRST field with that name: no earlier
      field has it. */
  lemma {:induction false} GetFirst(form: seq<Field>, k: string, j: nat)
    requires j < |form| && form[j].0 == k
    requires forall i :: 0 <= i < j ==> form[i].0 != k
    ensures Get(form, k) == Some(form[j].1)
  {
    if j > 0 {
      GetFirst(form[1..], k, j - 1);
    }
  }

  /** Looking a name up after one more field: an earlier field wins. */
  lemma {:induction false} GetAppend(p: seq<Field>, x: Field, k: string)
    ensures Get(p + [x], k) ==
            if Get(p, k).Some? then Get(p, k)
            else if x.0 == k then Some(x.1) else None
  {
    if p == [] {
      assert [] + [x] == [x];
    } else {
      assert (p + [x])[1..] == p[1..] + [x];
      if p[0].0 != k { GetAppend(p[1..], x, k); }
    }
  }

  /** The index of the first field named `k`, or `|form|` when there is
      none. */
  function FirstIndex(form: seq<Field>, k: string): (n: nat)
    ensures n <= |form|
    ensures n < |form| <==> k in Keys(form)
    ensures n < |form| ==> form[n].0 == k
    ensures forall i :: 0 <= i < n ==> form[i].0 != k
  {
    if form == [] then 0
    else if form[0].0 == k then 0
    else
      var n := FirstIndex(form[1..], k);
      assert forall i :: 1 <= i < |form| ==> form[i] == form[1..][i - 1];
      assert Keys(form) == {form[0].0} + Keys(form[1..]) by {
        forall y | y in Keys(form) ensures y in {form[0].0} + Keys(form[1..]) {
          var j :| 0 <= j < |form| && form[j].0 == y;
          if j > 0 { assert form[1..][j - 1].0 == y; }
        }
      }
      1 + n
  }

  /** A name of `p` keeps its first index after one more field, and a new
      name first appears at the end. */
  lemma FirstIndexAppend(p: seq<Field>, x: Field, k: string)
    requires k in Keys(p) || x.0 == k
    ensures FirstIndex(p + [x], k) == if k in Keys(p) then FirstIndex(p, k) else |p|
  {
    var q := p + [x];
    var n := FirstIndex(p, k);
    if k in Keys(p) {
      assert q[n] == p[n];
      forall i | 0 <= i < n ensures q[i].0 != k { assert q[i] == p[i]; }
      FirstIndexUnique(q, k, n);
    } else {
      forall i | 0 <= i < |p| ensures q[i].0 != k {
        assert q[i] == p[i];
        assert p[i].0 in Keys(p);
      }
      assert q[|p|] == x;
      FirstIndexUnique(q, k, |p|);
    }
  }

  /** The first index is the index before which the name does not occur. */
  lemma FirstIndexUnique(form: seq<Field>, k: string, n: nat)
    requires n < |form| && form[n].0 == k
    requires forall i :: 0 <= i < n ==> form[i].0 != k
    ensures FirstIndex(form, k) == n
  {
    var m := FirstIndex(form, k);
    assert form[n].0 in Keys(form);
  }

  /** The names of a sequence with one more field. */
  lemma KeysAppend(p: seq<Field>, x: Field)
    ensures Keys(p + [x]) == Keys(p) + {x.0}
  {
    var q := p + [x];
    forall y | y in Keys(q) ensures y in Keys(p) + {x.0} {
      var j :| 0 <= j < |q| && q[j].0 == y;
      if j < |p| { assert p[j].0 == y; }
    }
    forall y | y in Keys(p) ensures y in Keys(q) {
      var j :| 0 <= j < |p| && p[j].0 == y;
      assert q[j].0 == y;
    }
    assert q[|p|].0 == x.0;
  }

  /** `form.items()`: one field per distinct name, in order of first
      appearance, each with the first value given for that name. */
  function Items(form: seq<Field>): (r: seq<Field>)
    ensures DistinctKeys(r)
    ensures Keys(r) == Keys(form)
    ensures forall j :: 0 <= j < |r| ==> Get(form, r[j].0) == Some(r[j].1)
    ensures forall i, j :: 0 <= i < j < |r| ==> FirstIndex(form, r[i].0) < FirstIndex(form, r[j].0)
    decreases |form|
  {
    if form == [] then []
    else
      var p := form[..|form| - 1];
      var x := form[|form| - 1];
      var rest := Items(p);
      assert form == p + [x];
      KeysAppend(p, x);
      ItemsStepKnown(p, x, rest);
      ItemsOrderKnown(p, x, rest);
      if x.0 in Keys(rest) then rest
      else
        ItemsStepNew(p, x, rest);
        ItemsOrderNew(p, x, rest);
        rest + [x]
  }

  /** A field added after the form keeps every earlier name's value. */
  lemma ItemsStepKnown(p: seq<Field>, x: Field, rest: seq<Field>)
    requires Keys(rest) == Keys(p)
    requires forall j :: 0 <= j < |rest| ==> Get(p, rest[j].0) == Some(rest[j].1)
    ensures forall j :: 0 <= j < |rest| ==> Get(p + [x], rest[j].0) == Some(rest[j].1)
  {
    forall j | 0 <= j < |rest| ensures Get(p + [x], rest[j].0) == Some(rest[j].1) {
      GetAppend(p, x, rest[j].0);
    }
  }

  /** A field with a new name is appended to `items()`. */
  lemma ItemsStepNew(p: seq<Field>, x: Field, rest: seq<Field>)
    requires DistinctKeys(rest) && Keys(rest) == Keys(p) && x.0 !in Keys(rest)
    requires forall j :: 0 <= j < |rest| ==> Get(p + [x], rest[j].0) == Some(rest[j].1)
    ensures DistinctKeys(rest + [x]) && Keys(rest + [x]) == Keys(p) + {x.0}
    ensures forall j :: 0 <= j < |rest + [x]| ==> Get(p + [x], (rest + [x])[j].0) == Some((rest + [x])[j].1)
  {
    KeysAppend(rest, x);
    GetAppend(p, x, x.0);
    var r := rest + [x];
    forall i, j | 0 <= i < j < |r| ensures r[i].0 != r[j].0 {
      assert r[i] == rest[i];
      if j < |rest| { assert r[j] == rest[j]; } else { assert rest[i].0 in Keys(rest); }
    }
    forall j | 0 <= j < |r| ensures Get(p + [x], r[j].0) == Some(r[j].1) {
      if j < |rest| { assert r[j] == rest[j]; }
    }
  }

  /** One more field keeps the first-appearance order of the earlier names. */
  lemma ItemsOrderKnown(p: seq<Field>, x: Field, rest: seq<Field>)
    requires Keys(rest) == Keys(p)
    requires forall i, j :: 0 <= i < j < |rest| ==> FirstIndex(p, rest[i].0) < FirstIndex(p, rest[j].0)
    ensures forall j :: 0 <= j < |rest| ==> FirstIndex(p + [x], rest[j].0) == FirstIndex(p, rest[j].0)
    ensures forall i, j :: 0 <= i < j < |rest| ==> FirstIndex(p + [x], rest[i].0) < FirstIndex(p + [x], rest[j].0)
  {
    forall j | 0 <= j < |rest| ensures FirstIndex(p + [x], rest[j].0) == FirstIndex(p, rest[j].0) {
      assert rest[j].0 in Keys(rest);
      FirstIndexAppend(p, x, rest[j].0);
    }
  }

  /** A new name comes after every earlier one in first-appearance order. */
  lemma ItemsOrderNew(p: seq<Field>, x: Field, rest: seq<Field>)
    requires Keys(rest) == Keys(p) && x.0 !in Keys(p)
    requires forall j :: 0 <= j < |rest| ==> FirstIndex(p + [x], rest[j].0) == FirstIndex(p, rest[j].0)
    requires forall i, j :: 0 <= i < j < |rest| ==> FirstIndex(p + [x], rest[i].0) < FirstIndex(p + [x], rest[j].0)
    ensures forall i, j :: 0 <= i < j < |rest + [x]| ==>
              FirstIndex(p + [x], (rest + [x])[i].0) < FirstIndex(p + [x], (rest + [x])[j].0)
  {
    var r := rest + [x];
    FirstIndexAppend(p, x, x.0);
    forall i, j | 0 <= i < j < |r| ensures FirstIndex(p + [x], r[i].0) < FirstIndex(p + [x], r[j].0) {
      assert r[i] == rest[i];
      if j < |rest| {
        assert r[j] == rest[j];
      } else {
        assert rest[i].0 in Keys(rest);
        assert FirstIndex(p, rest[i].0) < |p|;
      }
    }
  }

  /** Every field of the form is reported by `items()`, with the value
      `get` returns for its name. */
  lemma ItemsCover(form: seq<Field>, k: string)
    requires k in Keys(form)
    ensures exists j :: 0 <= j < |Items(form)| && Items(form)[j] == (k, Get(form, k).value)
  {
    var r := Items(form);
    assert k in Keys(r);
    var j :| 0 <= j < |r| && r[j].0 == k;
    assert r[j] == (k, Get(form, k).value);
  }

  /** A form without repeated names is its own `items()`. */
  lemma {:induction false} ItemsOfDistinct(form: seq<Field>)
    requires DistinctKeys(form)
    ensures Items(form) == form
    decreases |form|
  {
    if form != [] {
      var p := form[..|form| - 1];
      var x := form[|form| - 1];
      assert form == p + [x];
      assert DistinctKeys(p) by {
        forall i, j | 0 <= i < j < |p| ensures p[i].0 != p[j].0 {
          assert p[i] == form[i] && p[j] == form[j];
        }
      }
      ItemsOfDistinct(p);
      assert x.0 !in Keys(p) by {
        forall j | 0 <= j < |p| ensures p[j].0 != x.0 {
          assert p[j] == form[j];
        }
      }
    }
  }
}
