/**
 Structured differences between two JSON documents: none exactly when the documents are equal,
 each one names what both sides hold at its path, and applying them to the reference yields a
 document equal to the candidate. Equality is Python's, to which `True` and `1` are the same.
 */
module DocumentDiff {
  import opened Options
  import Orders
  import opened StringOrder
  import opened Numerals

  datatype Atom = Null | Boolean(b: bool) | Numeral(n: real) | Text(s: string)

  datatype Doc = Scalar(atom: Atom) | Array(items: seq<Doc>) | Object(fields: map<string, Doc>)

  datatype Step = Key(key: string) | At(index: nat)

  type Path = seq<Step>

  /** What stands at a path on the two sides; `None` is the missing marker. */
  datatype Difference = Difference(path: Path, reference: Option<Doc>, candidate: Option<Doc>)

  function Field(m: map<string, Doc>, k: string): Option<Doc> { if k in m then Some(m[k]) else None }

  function Item(s: seq<Doc>, i: nat): Option<Doc> { if i < |s| then Some(s[i]) else None }

  function Larger(a: nat, b: nat): nat { if a < b then b else a }

  // ---- equality ----

  function PlainAtom(a: Atom): Atom {
    match a
    case Boolean(b) => Numeral(if b then 1.0 else 0.0)
    case _ => a
  }

  /** The document with every boolean written as a number. */
  function Plain(d: Doc): Doc {
    match d
    case Scalar(a) => Scalar(PlainAtom(a))
    case Array(items) => Array(seq(|items|, i requires 0 <= i < |items| => Plain(items[i])))
    case Object(fields) => Object(map k | k in fields :: Plain(fields[k]))
  }

  /** Python's `==` on documents. */
  predicate Same(a: Doc, b: Doc) { Plain(a) == Plain(b) }

  predicate SameAt(l: Option<Doc>, r: Option<Doc>) { l == r || (l.Some? && r.Some? && Same(l.value, r.value)) }

  lemma SameObjects(f: map<string, Doc>, g: map<string, Doc>)
    ensures Same(Object(f), Object(g)) <==> forall k :: SameAt(Field(f, k), Field(g, k))
  {
    var p, q := Plain(Object(f)).fields, Plain(Object(g)).fields;
    assert p.Keys == f.Keys && q.Keys == g.Keys;
    if Same(Object(f), Object(g)) {
      forall k ensures SameAt(Field(f, k), Field(g, k)) {
        assert k in p <==> k in q;
        if k in f {
          assert p[k] == q[k];
        }
      }
    }
    if forall k :: SameAt(Field(f, k), Field(g, k)) {
      forall k ensures (k in p <==> k in q) && (k in p ==> p[k] == q[k]) {
        assert SameAt(Field(f, k), Field(g, k));
      }
      assert p == q;
    }
  }

  lemma SameArrays(s: seq<Doc>, t: seq<Doc>)
    ensures Same(Array(s), Array(t)) <==> |s| == |t| && forall i :: 0 <= i < |s| ==> Same(s[i], t[i])
  {
    var p, q := Plain(Array(s)).items, Plain(Array(t)).items;
    assert |p| == |s| && |q| == |t|;
    assert forall i :: 0 <= i < |s| ==> p[i] == Plain(s[i]);
    assert forall i :: 0 <= i < |t| ==> q[i] == Plain(t[i]);
    if |s| == |t| && forall i :: 0 <= i < |s| ==> Same(s[i], t[i]) {
      assert p == q;
    }
    if p == q {
      forall i | 0 <= i < |s| ensures Same(s[i], t[i]) {
        assert p[i] == q[i];
      }
    }
  }

  // ---- the differences ----

  function Differences(reference: Doc, candidate: Doc, path: Path): seq<Difference>
    decreases reference, 1, 0
  {
    if Same(reference, candidate) then []
    else if reference.Object? && candidate.Object? then
      FieldDifferences(reference.fields, candidate.fields, Sorted(reference.fields.Keys + candidate.fields.Keys), path)
    else if reference.Array? && candidate.Array? then
      ItemDifferences(reference.items, candidate.items, 0, path)
    else [Difference(path, Some(reference), Some(candidate))]
  }

  /** Where at most one side holds a value. */
  function OneSided(l: Option<Doc>, r: Option<Doc>, path: Path): seq<Difference> {
    if l == r then [] else [Difference(path, l, r)]
  }

  function FieldDifferences(f: map<string, Doc>, g: map<string, Doc>, keys: seq<string>, path: Path): seq<Difference>
    decreases Object(f), 0, |keys|
  {
    if keys == [] then []
    else
      var k, p := keys[0], path + [Key(keys[0])];
      (if k in f && k in g then Differences(f[k], g[k], p) else OneSided(Field(f, k), Field(g, k), p))
      + FieldDifferences(f, g, keys[1..], path)
  }

  function ItemDifferences(s: seq<Doc>, t: seq<Doc>, i: nat, path: Path): seq<Difference>
    decreases Array(s), 0, Larger(|s|, |t|) - i
  {
    if i >= Larger(|s|, |t|) then []
    else
      var p := path + [At(i)];
      (if i < |s| && i < |t| then Differences(s[i], t[i], p) else OneSided(Item(s, i), Item(t, i), p))
      + ItemDifferences(s, t, i + 1, path)
  }

  // ---- no difference exactly when equal ----

  /** Two documents have no difference exactly when they are equal. */
  lemma {:induction false} EmptyExactlyWhenEqual(reference: Doc, candidate: Doc, path: Path)
    ensures Differences(reference, candidate, path) == [] <==> Same(reference, candidate)
    decreases reference, 1, 0
  {
    hide Same;
    if !Same(reference, candidate) {
      if reference.Object? && candidate.Object? {
        var f, g := reference.fields, candidate.fields;
        FieldsEmpty(f, g, Sorted(f.Keys + g.Keys), path);
        SameObjects(f, g);
        SameEverywhere(f, g, Sorted(f.Keys + g.Keys));
      } else if reference.Array? && candidate.Array? {
        ItemsEmpty(reference.items, candidate.items, 0, path);
        SameArrays(reference.items, candidate.items);
        SameLength(reference.items, candidate.items);
      }
    }
  }

  lemma SameEverywhere(f: map<string, Doc>, g: map<string, Doc>, keys: seq<string>)
    requires forall k :: k in keys <==> k in f.Keys + g.Keys
    ensures (forall k :: k in keys ==> SameAt(Field(f, k), Field(g, k))) ==>
            forall k :: SameAt(Field(f, k), Field(g, k))
  {
    if forall k :: k in keys ==> SameAt(Field(f, k), Field(g, k)) {
      forall k ensures SameAt(Field(f, k), Field(g, k)) {
        if k !in keys {
          assert k !in f && k !in g;
        }
      }
    }
  }

  lemma SameLength(s: seq<Doc>, t: seq<Doc>)
    ensures (forall i :: 0 <= i < Larger(|s|, |t|) ==> SameAt(Item(s, i), Item(t, i)))
            ==> |s| == |t| && forall i :: 0 <= i < |s| ==> Same(s[i], t[i])
  {
    hide Same;
    if forall i :: 0 <= i < Larger(|s|, |t|) ==> SameAt(Item(s, i), Item(t, i)) {
      if |s| != |t| {
        var n := if |s| < |t| then |s| else |t|;
        var here := SameAt(Item(s, n), Item(t, n));
      }
      forall i | 0 <= i < |s| ensures Same(s[i], t[i]) {
        assert SameAt(Item(s, i), Item(t, i));
        SameReflexive(s[i], t[i]);
      }
    }
  }

  lemma SameReflexive(a: Doc, b: Doc)
    ensures a == b ==> Same(a, b)
  {
  }

  lemma {:induction false} FieldsEmpty(f: map<string, Doc>, g: map<string, Doc>, keys: seq<string>, path: Path)
    ensures FieldDifferences(f, g, keys, path) == [] ==> forall k :: k in keys ==> SameAt(Field(f, k), Field(g, k))
    decreases Object(f), 0, |keys|
  {
    hide Same;
    if keys != [] {
      var k, p := keys[0], path + [Key(keys[0])];
      if k in f && k in g {
        EmptyExactlyWhenEqual(f[k], g[k], p);
      }
      FieldsEmpty(f, g, keys[1..], path);
      assert keys == [k] + keys[1..];
    }
  }

  lemma {:induction false} ItemsEmpty(s: seq<Doc>, t: seq<Doc>, i: nat, path: Path)
    ensures ItemDifferences(s, t, i, path) == []
            ==> forall j :: i <= j < Larger(|s|, |t|) ==> SameAt(Item(s, j), Item(t, j))
    decreases Array(s), 0, Larger(|s|, |t|) - i
  {
    hide Same;
    if i < Larger(|s|, |t|) {
      if i < |s| && i < |t| {
        EmptyExactlyWhenEqual(s[i], t[i], path + [At(i)]);
      }
      ItemsEmpty(s, t, i + 1, path);
    }
  }

  // ---- applying differences ----

  function SetField(f: map<string, Doc>, k: string, v: Option<Doc>): map<string, Doc> {
    match v case None => f - {k} case Some(d) => f[k := d]
  }

  /** An absent item ends the list; the item after the last one is appended. */
  function SetItem(s: seq<Doc>, i: nat, v: Option<Doc>): seq<Doc> {
    match v
    case None => if i < |s| then s[..i] else s
    case Some(d) => if i < |s| then s[i := d] else s + [d]
  }

  /** The document with the value at `path` replaced. */
  function Put(doc: Option<Doc>, path: Path, v: Option<Doc>): Option<Doc>
    decreases |path|
  {
    if path == [] then v
    else if doc.None? then doc
    else match (doc.value, path[0])
      case (Object(f), Key(k)) => Some(Object(SetField(f, k, Put(Field(f, k), path[1..], v))))
      case (Array(s), At(i)) => Some(Array(SetItem(s, i, Put(Item(s, i), path[1..], v))))
      case (_, _) => doc
  }

  /** What stands at `path`. */
  function Get(doc: Option<Doc>, path: Path): Option<Doc>
    decreases |path|
  {
    if path == [] || doc.None? then doc
    else match (doc.value, path[0])
      case (Object(f), Key(k)) => Get(Field(f, k), path[1..])
      case (Array(s), At(i)) => Get(Item(s, i), path[1..])
      case (_, _) => None
  }

  /** The candidate values of `ds`, written one after the other. */
  function Apply(doc: Option<Doc>, ds: seq<Difference>): Option<Doc>
    decreases |ds|
  {
    if ds == [] then doc else Apply(Put(doc, ds[0].path, ds[0].candidate), ds[1..])
  }

  lemma {:induction false} ApplyAppend(doc: Option<Doc>, ds: seq<Difference>, es: seq<Difference>)
    ensures Apply(doc, ds + es) == Apply(Apply(doc, ds), es)
    decreases |ds|
  {
    if ds == [] {
      assert ds + es == es;
    } else {
      assert (ds + es)[1..] == ds[1..] + es;
      ApplyAppend(Put(doc, ds[0].path, ds[0].candidate), ds[1..], es);
    }
  }

  // ---- differences below one step ----

  function Under(path: Path, ds: seq<Difference>): (es: seq<Difference>)
    ensures |es| == |ds|
    ensures forall i :: 0 <= i < |ds| ==> es[i] == ds[i].(path := path + ds[i].path)
  {
    seq(|ds|, i requires 0 <= i < |ds| => ds[i].(path := path + ds[i].path))
  }

  lemma UnderAppend(path: Path, ds: seq<Difference>, es: seq<Difference>)
    ensures Under(path, ds + es) == Under(path, ds) + Under(path, es)
  {
  }

  lemma UnderUnder(path: Path, step: Path, ds: seq<Difference>)
    ensures Under(path + step, ds) == Under(path, Under(step, ds))
  {
    forall i | 0 <= i < |ds| ensures path + step + ds[i].path == path + (step + ds[i].path) {
    }
  }

  lemma UnderOne(path: Path, l: Option<Doc>, r: Option<Doc>)
    ensures OneSided(l, r, path) == Under(path, OneSided(l, r, []))
  {
    assert path + [] == path;
  }

  /** The path argument is only a prefix. */
  lemma {:induction false} PathIsPrefix(reference: Doc, candidate: Doc, path: Path)
    ensures Differences(reference, candidate, path) == Under(path, Differences(reference, candidate, []))
    decreases reference, 1, 0
  {
    hide Same;
    if !Same(reference, candidate) {
      if reference.Object? && candidate.Object? {
        FieldsPrefix(reference.fields, candidate.fields, Sorted(reference.fields.Keys + candidate.fields.Keys), path);
      } else if reference.Array? && candidate.Array? {
        ItemsPrefix(reference.items, candidate.items, 0, path);
      } else {
        assert path + [] == path;
      }
    }
  }

  lemma {:induction false} FieldsPrefix(f: map<string, Doc>, g: map<string, Doc>, keys: seq<string>, path: Path)
    ensures FieldDifferences(f, g, keys, path) == Under(path, FieldDifferences(f, g, keys, []))
    decreases Object(f), 0, |keys|
  {
    if keys != [] {
      var k := keys[0];
      var step := [Key(k)];
      assert [] + step == step;
      var head := FieldHead(f, g, k, []);
      if k in f && k in g {
        PathIsPrefix(f[k], g[k], path + step);
        PathIsPrefix(f[k], g[k], step);
        UnderUnder(path, step, Differences(f[k], g[k], []));
      } else {
        UnderOne(path + step, Field(f, k), Field(g, k));
        UnderOne(step, Field(f, k), Field(g, k));
        UnderUnder(path, step, OneSided(Field(f, k), Field(g, k), []));
      }
      FieldsPrefix(f, g, keys[1..], path);
      UnderAppend(path, head, FieldDifferences(f, g, keys[1..], []));
    }
  }

  function FieldHead(f: map<string, Doc>, g: map<string, Doc>, k: string, path: Path): seq<Difference> {
    var p := path + [Key(k)];
    if k in f && k in g then Differences(f[k], g[k], p) else OneSided(Field(f, k), Field(g, k), p)
  }

  function ItemHead(s: seq<Doc>, t: seq<Doc>, i: nat, path: Path): seq<Difference> {
    var p := path + [At(i)];
    if i < |s| && i < |t| then Differences(s[i], t[i], p) else OneSided(Item(s, i), Item(t, i), p)
  }

  lemma {:induction false} ItemsPrefix(s: seq<Doc>, t: seq<Doc>, i: nat, path: Path)
    ensures ItemDifferences(s, t, i, path) == Under(path, ItemDifferences(s, t, i, []))
    decreases Array(s), 0, Larger(|s|, |t|) - i
  {
    if i < Larger(|s|, |t|) {
      var step := [At(i)];
      assert [] + step == step;
      var head := ItemHead(s, t, i, []);
      if i < |s| && i < |t| {
        PathIsPrefix(s[i], t[i], path + step);
        PathIsPrefix(s[i], t[i], step);
        UnderUnder(path, step, Differences(s[i], t[i], []));
      } else {
        UnderOne(path + step, Item(s, i), Item(t, i));
        UnderOne(step, Item(s, i), Item(t, i));
        UnderUnder(path, step, OneSided(Item(s, i), Item(t, i), []));
      }
      ItemsPrefix(s, t, i + 1, path);
      UnderAppend(path, head, ItemDifferences(s, t, i + 1, []));
    }
  }

  /** Differences that never make a document disappear. */
  predicate Solid(ds: seq<Difference>) { forall i :: 0 <= i < |ds| ==> ds[i].path == [] ==> ds[i].candidate.Some? }

  lemma {:induction false} ApplyUnderKey(f: map<string, Doc>, k: string, ds: seq<Difference>)
    ensures Apply(Some(Object(f)), Under([Key(k)], ds)) == Some(Object(SetField(f, k, Apply(Field(f, k), ds))))
    decreases |ds|
  {
    var es := Under([Key(k)], ds);
    if ds == [] {
      assert SetField(f, k, Field(f, k)) == f;
    } else {
      var d, v := ds[0], Put(Field(f, k), ds[0].path, ds[0].candidate);
      assert es[0].path[0] == Key(k) && es[0].path[1..] == d.path;
      assert Put(Some(Object(f)), es[0].path, d.candidate) == Some(Object(SetField(f, k, v)));
      assert es[1..] == Under([Key(k)], ds[1..]);
      ApplyUnderKey(SetField(f, k, v), k, ds[1..]);
      assert Field(SetField(f, k, v), k) == v;
      var w := Apply(v, ds[1..]);
      assert SetField(SetField(f, k, v), k, w) == SetField(f, k, w);
    }
  }

  lemma {:induction false} ApplyUnderIndex(s: seq<Doc>, i: nat, ds: seq<Difference>)
    requires i < |s| && Solid(ds)
    ensures var w := Apply(Some(s[i]), ds);
            w.Some? && Apply(Some(Array(s)), Under([At(i)], ds)) == Some(Array(s[i := w.value]))
    decreases |ds|
  {
    var es := Under([At(i)], ds);
    if ds == [] {
      assert s[i := s[i]] == s;
    } else {
      var d, v := ds[0], Put(Some(s[i]), ds[0].path, ds[0].candidate);
      assert v.Some?;
      assert es[0].path[0] == At(i) && es[0].path[1..] == d.path;
      assert Put(Some(Array(s)), es[0].path, d.candidate) == Some(Array(s[i := v.value]));
      assert es[1..] == Under([At(i)], ds[1..]);
      ApplyUnderIndex(s[i := v.value], i, ds[1..]);
      assert s[i := v.value][i := Apply(v, ds[1..]).value] == s[i := Apply(v, ds[1..]).value];
    }
  }

  lemma {:induction false} DifferencesSolid(reference: Doc, candidate: Doc)
    ensures Solid(Differences(reference, candidate, []))
  {
    hide Same;
    if !Same(reference, candidate) {
      if reference.Object? && candidate.Object? {
        FieldsBelow(reference.fields, candidate.fields, Sorted(reference.fields.Keys + candidate.fields.Keys));
      } else if reference.Array? && candidate.Array? {
        ItemsBelow(reference.items, candidate.items, 0);
      }
    }
  }

  predicate Proper(ds: seq<Difference>) { forall i :: 0 <= i < |ds| ==> ds[i].path != [] }

  lemma {:induction false} FieldsBelow(f: map<string, Doc>, g: map<string, Doc>, keys: seq<string>)
    ensures Proper(FieldDifferences(f, g, keys, []))
    decreases |keys|
  {
    if keys != [] {
      var k := keys[0];
      assert [] + [Key(k)] == [Key(k)];
      if k in f && k in g {
        PathIsPrefix(f[k], g[k], [Key(k)]);
      }
      FieldsBelow(f, g, keys[1..]);
    }
  }

  lemma {:induction false} ItemsBelow(s: seq<Doc>, t: seq<Doc>, i: nat)
    ensures Proper(ItemDifferences(s, t, i, []))
    decreases Larger(|s|, |t|) - i
  {
    if i < Larger(|s|, |t|) {
      assert [] + [At(i)] == [At(i)];
      if i < |s| && i < |t| {
        PathIsPrefix(s[i], t[i], [At(i)]);
      }
      ItemsBelow(s, t, i + 1);
    }
  }

  // ---- applying yields the candidate ----

  /** Applying the differences to the reference yields a document equal to the candidate. */
  lemma {:induction false} ApplyYieldsCandidate(reference: Doc, candidate: Doc)
    ensures var d := Apply(Some(reference), Differences(reference, candidate, [])); d.Some? && Same(d.value, candidate)
    decreases reference, 1, 0
  {
    hide Same;
    if !Same(reference, candidate) {
      if reference.Object? && candidate.Object? {
        var f, g := reference.fields, candidate.fields;
        var keys := Sorted(f.Keys + g.Keys);
        var h := ApplyFields(f, g, f, keys);
        forall k ensures SameAt(Field(h, k), Field(g, k)) {
          assert k in keys <==> k in f || k in g;
        }
        SameObjects(h, g);
      } else if reference.Array? && candidate.Array? {
        var s, t := reference.items, candidate.items;
        var u := ApplyItems(s, t, 0, s);
        SameArrays(u, t);
      } else {
        assert Differences(reference, candidate, [])[1..] == [];
        SameReflexive(candidate, candidate);
      }
    }
  }

  lemma {:induction false} ApplyFields(f: map<string, Doc>, g: map<string, Doc>, h: map<string, Doc>, keys: seq<string>)
    returns (e: map<string, Doc>)
    requires Orders.Distinct(keys) && forall k :: k in keys ==> Field(h, k) == Field(f, k)
    ensures Apply(Some(Object(h)), FieldDifferences(f, g, keys, [])) == Some(Object(e))
    ensures forall k :: if k in keys then SameAt(Field(e, k), Field(g, k)) else Field(e, k) == Field(h, k)
    decreases Object(f), 0, |keys|
  {
    hide Same, Apply;
    if keys == [] {
      e := h;
      ApplyNothing(Some(Object(h)), FieldDifferences(f, g, keys, []));
    } else {
      var k := keys[0];
      var v := ApplyField(f, g, h, k);
      var h' := SetField(h, k, v);
      ApplyAppend(Some(Object(h)), FieldHead(f, g, k, []), FieldDifferences(f, g, keys[1..], []));
      forall n | n in keys[1..] ensures Field(h', n) == Field(f, n) {
        assert n != k && n in keys;
      }
      e := ApplyFields(f, g, h', keys[1..]);
      assert keys == [k] + keys[1..] && k !in keys[1..];
    }
  }

  lemma ApplyNothing(doc: Option<Doc>, ds: seq<Difference>)
    requires ds == []
    ensures Apply(doc, ds) == doc
  {
  }

  lemma {:induction false} ApplyField(f: map<string, Doc>, g: map<string, Doc>, h: map<string, Doc>, k: string)
    returns (v: Option<Doc>)
    requires Field(h, k) == Field(f, k)
    ensures Apply(Some(Object(h)), FieldHead(f, g, k, [])) == Some(Object(SetField(h, k, v))) && SameAt(v, Field(g, k))
    decreases Object(f), 0, 0
  {
    hide Same;
    assert [] + [Key(k)] == [Key(k)];
    if k in f && k in g {
      ApplyYieldsCandidate(f[k], g[k]);
      PathIsPrefix(f[k], g[k], [Key(k)]);
      ApplyUnderKey(h, k, Differences(f[k], g[k], []));
      v := Apply(Some(f[k]), Differences(f[k], g[k], []));
    } else {
      UnderOne([Key(k)], Field(f, k), Field(g, k));
      ApplyUnderKey(h, k, OneSided(Field(f, k), Field(g, k), []));
      ApplyOneSided(Field(f, k), Field(g, k));
      v := Field(g, k);
    }
  }

  lemma ApplyOneSided(l: Option<Doc>, r: Option<Doc>)
    ensures Apply(l, OneSided(l, r, [])) == r
  {
    if l != r {
      assert OneSided(l, r, [])[1..] == [];
    }
  }

  /** `u` is the reference list with its first `i` positions brought to the candidate's. */
  predicate Partly(s: seq<Doc>, t: seq<Doc>, i: nat, u: seq<Doc>) {
    && |u| == (if i > |t| then |t| else if i > |s| then i else |s|)
    && (forall j :: 0 <= j < i && j < |t| ==> Same(u[j], t[j]))
    && (forall j :: i <= j < |u| ==> u[j] == s[j])
  }

  lemma {:induction false} ApplyItems(s: seq<Doc>, t: seq<Doc>, i: nat, u: seq<Doc>) returns (v: seq<Doc>)
    requires i <= Larger(|s|, |t|) && Partly(s, t, i, u)
    ensures Apply(Some(Array(u)), ItemDifferences(s, t, i, [])) == Some(Array(v))
    ensures |v| == |t| && forall j :: 0 <= j < |t| ==> Same(v[j], t[j])
    decreases Array(s), 0, Larger(|s|, |t|) - i
  {
    hide Same, Apply;
    if i == Larger(|s|, |t|) {
      v := u;
      ApplyNothing(Some(Array(u)), ItemDifferences(s, t, i, []));
    } else {
      var w := ApplyItem(s, t, i, u);
      ApplyAppend(Some(Array(u)), ItemHead(s, t, i, []), ItemDifferences(s, t, i + 1, []));
      v := ApplyItems(s, t, i + 1, w);
    }
  }

  lemma {:induction false} ApplyItem(s: seq<Doc>, t: seq<Doc>, i: nat, u: seq<Doc>) returns (w: seq<Doc>)
    requires i < Larger(|s|, |t|) && Partly(s, t, i, u)
    ensures Apply(Some(Array(u)), ItemHead(s, t, i, [])) == Some(Array(w)) && Partly(s, t, i + 1, w)
    decreases Array(s), 0, 0
  {
    hide Same;
    assert [] + [At(i)] == [At(i)];
    if i < |s| && i < |t| {
      ApplyYieldsCandidate(s[i], t[i]);
      PathIsPrefix(s[i], t[i], [At(i)]);
      DifferencesSolid(s[i], t[i]);
      ApplyUnderIndex(u, i, Differences(s[i], t[i], []));
      w := u[i := Apply(Some(s[i]), Differences(s[i], t[i], [])).value];
    } else {
      w := OneItem(s, t, i, u);
    }
  }

  /** An item that only one list has is appended, or ends the list. */
  lemma OneItem(s: seq<Doc>, t: seq<Doc>, i: nat, u: seq<Doc>) returns (w: seq<Doc>)
    requires i < Larger(|s|, |t|) && !(i < |s| && i < |t|) && Partly(s, t, i, u)
    ensures Apply(Some(Array(u)), OneSided(Item(s, i), Item(t, i), [At(i)])) == Some(Array(w)) && Partly(s, t, i + 1, w)
  {
    hide Same;
    var ds := OneSided(Item(s, i), Item(t, i), [At(i)]);
    assert |ds| == 1 && ds[1..] == [];
    var d := ds[0];
    assert d.path[0] == At(i) && d.path[1..] == [];
    w := SetItem(u, i, Item(t, i));
    assert Put(Some(Array(u)), d.path, d.candidate) == Some(Array(w));
    if i < |t| {
      SameReflexive(t[i], t[i]);
    }
  }

  // ---- every difference is a real one ----

  predicate Real(reference: Option<Doc>, candidate: Option<Doc>, d: Difference) {
    !SameAt(d.reference, d.candidate) && Get(reference, d.path) == d.reference && Get(candidate, d.path) == d.candidate
  }

  /** Each difference names what the two documents hold at its path, and these differ. */
  lemma {:induction false} EachIsReal(reference: Doc, candidate: Doc, d: Difference)
    requires d in Differences(reference, candidate, [])
    ensures Real(Some(reference), Some(candidate), d)
    decreases reference, 1, 0
  {
    if reference.Object? && candidate.Object? {
      FieldsReal(reference.fields, candidate.fields, Sorted(reference.fields.Keys + candidate.fields.Keys), d);
    } else if reference.Array? && candidate.Array? {
      ItemsReal(reference.items, candidate.items, 0, d);
    }
  }

  lemma {:induction false} FieldsReal(f: map<string, Doc>, g: map<string, Doc>, keys: seq<string>, d: Difference)
    requires d in FieldDifferences(f, g, keys, [])
    ensures Real(Some(Object(f)), Some(Object(g)), d)
    decreases Object(f), 0, |keys|
  {
    var k := keys[0];
    assert [] + [Key(k)] == [Key(k)];
    var head := FieldHead(f, g, k, []);
    if d in head {
      var e: Difference;
      if k in f && k in g {
        PathIsPrefix(f[k], g[k], [Key(k)]);
        e := FindUnder([Key(k)], Differences(f[k], g[k], []), d);
        EachIsReal(f[k], g[k], e);
      } else {
        UnderOne([Key(k)], Field(f, k), Field(g, k));
        e := FindUnder([Key(k)], OneSided(Field(f, k), Field(g, k), []), d);
      }
      assert d.path[0] == Key(k) && d.path[1..] == e.path;
    } else {
      FieldsReal(f, g, keys[1..], d);
    }
  }

  lemma FindUnder(path: Path, ds: seq<Difference>, d: Difference) returns (e: Difference)
    requires d in Under(path, ds)
    ensures e in ds && d == e.(path := path + e.path)
  {
    var i :| 0 <= i < |ds| && Under(path, ds)[i] == d;
    e := ds[i];
  }

  lemma {:induction false} ItemsReal(s: seq<Doc>, t: seq<Doc>, i: nat, d: Difference)
    requires d in ItemDifferences(s, t, i, [])
    ensures Real(Some(Array(s)), Some(Array(t)), d)
    decreases Array(s), 0, Larger(|s|, |t|) - i
  {
    assert [] + [At(i)] == [At(i)];
    var head := ItemHead(s, t, i, []);
    if d in head {
      var e: Difference;
      if i < |s| && i < |t| {
        PathIsPrefix(s[i], t[i], [At(i)]);
        e := FindUnder([At(i)], Differences(s[i], t[i], []), d);
        EachIsReal(s[i], t[i], e);
      } else {
        UnderOne([At(i)], Item(s, i), Item(t, i));
        e := FindUnder([At(i)], OneSided(Item(s, i), Item(t, i), []), d);
      }
      assert d.path[0] == At(i) && d.path[1..] == e.path;
    } else {
      ItemsReal(s, t, i + 1, d);
    }
  }

  // ---- rendered paths, and the accumulating loops ----

  /** One more step at the end of a rendered path. */
  function Extend(path: string, step: Step): string {
    match step
    case Key(k) => if path != "" then path + "." + k else k
    case At(i) => path + "[" + Decimal(i) + "]"
  }

  function RenderPath(start: string, path: Path): string
    decreases |path|
  {
    if path == [] then start else RenderPath(Extend(start, path[0]), path[1..])
  }

  /** A difference as the source lists it. */
  datatype Reported = Reported(path: string, reference: Option<Doc>, candidate: Option<Doc>)

  function Render(start: string, ds: seq<Difference>): (rs: seq<Reported>)
    ensures |rs| == |ds|
    ensures forall i :: 0 <= i < |ds| ==>
            rs[i] == Reported(RenderPath(start, ds[i].path), ds[i].reference, ds[i].candidate)
  {
    seq(|ds|, i requires 0 <= i < |ds| => Reported(RenderPath(start, ds[i].path), ds[i].reference, ds[i].candidate))
  }

  lemma RenderAppend(start: string, ds: seq<Difference>, es: seq<Difference>)
    ensures Render(start, ds + es) == Render(start, ds) + Render(start, es)
  {
    hide RenderPath;
  }

  lemma RenderUnder(start: string, step: Step, ds: seq<Difference>)
    ensures Render(start, Under([step], ds)) == Render(Extend(start, step), ds)
  {
    forall i | 0 <= i < |ds|
      ensures RenderPath(start, [step] + ds[i].path) == RenderPath(Extend(start, step), ds[i].path)
    {
      assert ([step] + ds[i].path)[1..] == ds[i].path;
    }
    hide RenderPath, Extend;
  }

  /** The source's recursion, which extends a local list in a loop over keys or positions. */
  method Collect(reference: Doc, candidate: Doc, path: string) returns (rs: seq<Reported>)
    ensures rs == Render(path, Differences(reference, candidate, []))
    decreases reference, 2
  {
    hide Same;
    if Same(reference, candidate) { return []; }
    if reference.Object? && candidate.Object? {
      rs := CollectFields(reference.fields, candidate.fields, path);
    } else if reference.Array? && candidate.Array? {
      rs := CollectItems(reference.items, candidate.items, path);
    } else {
      rs := [Reported(path, Some(reference), Some(candidate))];
    }
  }

  /** Where one side holds nothing, the recursion compares it with the missing marker. */
  method CollectOne(l: Option<Doc>, r: Option<Doc>, path: string) returns (rs: seq<Reported>)
    ensures rs == Render(path, OneSided(l, r, []))
  {
    rs := if l == r then [] else [Reported(path, l, r)];
  }

  lemma FieldStep(f: map<string, Doc>, g: map<string, Doc>, keys: seq<string>, n: nat, path: string)
    requires n < |keys|
    ensures Render(path, FieldDifferences(f, g, keys[n..], []))
            == Render(path, FieldHead(f, g, keys[n], [])) + Render(path, FieldDifferences(f, g, keys[n + 1..], []))
  {
    assert keys[n..][0] == keys[n] && keys[n..][1..] == keys[n + 1..];
    RenderAppend(path, FieldHead(f, g, keys[n], []), FieldDifferences(f, g, keys[n + 1..], []));
  }

  lemma RenderField(f: map<string, Doc>, g: map<string, Doc>, k: string, path: string)
    ensures Render(path, FieldHead(f, g, k, []))
            == Render(Extend(path, Key(k)), if k in f && k in g then Differences(f[k], g[k], [])
                                            else OneSided(Field(f, k), Field(g, k), []))
  {
    assert [] + [Key(k)] == [Key(k)];
    if k in f && k in g {
      PathIsPrefix(f[k], g[k], [Key(k)]);
      RenderUnder(path, Key(k), Differences(f[k], g[k], []));
    } else {
      UnderOne([Key(k)], Field(f, k), Field(g, k));
      RenderUnder(path, Key(k), OneSided(Field(f, k), Field(g, k), []));
    }
  }

  lemma Regroup<T>(a: seq<T>, b: seq<T>, c: seq<T>)
    ensures a + (b + c) == (a + b) + c
  {
  }

  method CollectField(f: map<string, Doc>, g: map<string, Doc>, k: string, path: string) returns (rs: seq<Reported>)
    ensures rs == Render(path, FieldHead(f, g, k, []))
    decreases Object(f), 0
  {
    hide Differences, FieldHead, OneSided, Extend, Render;
    RenderField(f, g, k, path);
    if k in f && k in g {
      rs := Collect(f[k], g[k], Extend(path, Key(k)));
    } else {
      rs := CollectOne(Field(f, k), Field(g, k), Extend(path, Key(k)));
    }
  }

  method CollectFields(f: map<string, Doc>, g: map<string, Doc>, path: string) returns (rs: seq<Reported>)
    ensures rs == Render(path, FieldDifferences(f, g, Sorted(f.Keys + g.Keys), []))
    decreases Object(f), 1
  {
    hide FieldDifferences, Differences, Sorted, FieldHead, OneSided, Extend, Render;
    rs := [];
    var keys := Sorted(f.Keys + g.Keys);
    ghost var whole := Render(path, FieldDifferences(f, g, keys, []));
    assert keys[0..] == keys && [] + whole == whole;
    for n := 0 to |keys|
      invariant whole == rs + Render(path, FieldDifferences(f, g, keys[n..], []))
    {
      FieldStep(f, g, keys, n, path);
      var more := CollectField(f, g, keys[n], path);
      Regroup(rs, more, Render(path, FieldDifferences(f, g, keys[n + 1..], [])));
      rs := rs + more;
    }
    NoFields(f, g, keys[|keys|..], path);
    assert rs + [] == rs;
  }

  lemma NoFields(f: map<string, Doc>, g: map<string, Doc>, keys: seq<string>, path: string)
    requires keys == []
    ensures Render(path, FieldDifferences(f, g, keys, [])) == []
  {
  }

  lemma ItemStep(s: seq<Doc>, t: seq<Doc>, i: nat, path: string)
    requires i < Larger(|s|, |t|)
    ensures Render(path, ItemDifferences(s, t, i, []))
            == Render(path, ItemHead(s, t, i, [])) + Render(path, ItemDifferences(s, t, i + 1, []))
  {
    RenderAppend(path, ItemHead(s, t, i, []), ItemDifferences(s, t, i + 1, []));
  }

  lemma RenderItem(s: seq<Doc>, t: seq<Doc>, i: nat, path: string)
    ensures Render(path, ItemHead(s, t, i, []))
            == Render(Extend(path, At(i)), if i < |s| && i < |t| then Differences(s[i], t[i], [])
                                           else OneSided(Item(s, i), Item(t, i), []))
  {
    assert [] + [At(i)] == [At(i)];
    if i < |s| && i < |t| {
      PathIsPrefix(s[i], t[i], [At(i)]);
      RenderUnder(path, At(i), Differences(s[i], t[i], []));
    } else {
      UnderOne([At(i)], Item(s, i), Item(t, i));
      RenderUnder(path, At(i), OneSided(Item(s, i), Item(t, i), []));
    }
  }

  lemma NoItems(s: seq<Doc>, t: seq<Doc>, path: string)
    ensures Render(path, ItemDifferences(s, t, Larger(|s|, |t|), [])) == []
  {
  }

  method CollectItem(s: seq<Doc>, t: seq<Doc>, i: nat, path: string) returns (rs: seq<Reported>)
    requires i < Larger(|s|, |t|)
    ensures rs == Render(path, ItemHead(s, t, i, []))
    decreases Array(s), 0
  {
    hide Differences, ItemHead, OneSided, Extend, Render;
    RenderItem(s, t, i, path);
    if i < |s| && i < |t| {
      rs := Collect(s[i], t[i], Extend(path, At(i)));
    } else {
      rs := CollectOne(Item(s, i), Item(t, i), Extend(path, At(i)));
    }
  }

  method CollectItems(s: seq<Doc>, t: seq<Doc>, path: string) returns (rs: seq<Reported>)
    ensures rs == Render(path, ItemDifferences(s, t, 0, []))
    decreases Array(s), 1
  {
    hide ItemDifferences, Differences, ItemHead, OneSided, Extend, Render;
    rs := [];
    ghost var whole := Render(path, ItemDifferences(s, t, 0, []));
    assert [] + whole == whole;
    for i := 0 to Larger(|s|, |t|)
      invariant whole == rs + Render(path, ItemDifferences(s, t, i, []))
    {
      ItemStep(s, t, i, path);
      var more := CollectItem(s, t, i, path);
      Regroup(rs, more, Render(path, ItemDifferences(s, t, i + 1, [])));
      rs := rs + more;
    }
    NoItems(s, t, path);
    assert rs + [] == rs;
  }
}
