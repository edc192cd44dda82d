/**
 Exactly what the structural difference lists, in which order and under which path, and exactly
 which documents Python's equality takes for equal.
 */
module DocumentDiffExactly {
  import opened Options
  import Orders
  import opened StringOrder
  import opened Numerals
  import opened DocumentDiff

  // ---- equality ----

  /** When two documents are equal: numbers, strings and null by value, `True` also with 1 and
      `False` also with 0, lists item by item, objects key by key, and no two kinds together. */
  lemma SameExactly(a: Doc, b: Doc)
    ensures Same(a, b) <==>
            match (a, b)
            case (Scalar(x), Scalar(y)) =>
              || x == y
              || (x == Boolean(true) && y == Numeral(1.0)) || (x == Boolean(false) && y == Numeral(0.0))
              || (x == Numeral(1.0) && y == Boolean(true)) || (x == Numeral(0.0) && y == Boolean(false))
            case (Array(s), Array(t)) => |s| == |t| && forall i :: 0 <= i < |s| ==> Same(s[i], t[i])
            case (Object(f), Object(g)) => f.Keys == g.Keys && forall k :: k in f ==> Same(f[k], g[k])
            case (_, _) => false
  {
    match (a, b)
    case (Scalar(x), Scalar(y)) =>
    case (Array(s), Array(t)) => SameArrays(s, t);
    case (Object(f), Object(g)) => SameFields(f, g);
    case (_, _) =>
  }

  lemma SameFields(f: map<string, Doc>, g: map<string, Doc>)
    ensures Same(Object(f), Object(g)) <==> f.Keys == g.Keys && forall k :: k in f ==> Same(f[k], g[k])
  {
    SameObjects(f, g);
    hide Same;
    if forall k :: SameAt(Field(f, k), Field(g, k)) {
      forall k ensures (k in f <==> k in g) && (k in f ==> Same(f[k], g[k])) {
        assert SameAt(Field(f, k), Field(g, k));
        if k in f && k in g {
          SameReflexive(f[k], g[k]);
        }
      }
      assert f.Keys == g.Keys;
    }
    if f.Keys == g.Keys && forall k :: k in f ==> Same(f[k], g[k]) {
      forall k ensures SameAt(Field(f, k), Field(g, k)) {
        assert k in f.Keys <==> k in g.Keys;
      }
    }
  }

  predicate BooleanFree(d: Doc) {
    match d
    case Scalar(a) => !a.Boolean?
    case Array(items) => forall i :: 0 <= i < |items| ==> BooleanFree(items[i])
    case Object(fields) => forall k :: k in fields ==> BooleanFree(fields[k])
  }

  lemma {:induction false} PlainIsItself(d: Doc)
    requires BooleanFree(d)
    ensures Plain(d) == d
  {
    match d
    case Scalar(a) =>
    case Array(items) =>
      forall i | 0 <= i < |items| ensures Plain(items[i]) == items[i] {
        PlainIsItself(items[i]);
      }
    case Object(fields) =>
      forall k | k in fields ensures Plain(fields[k]) == fields[k] {
        PlainIsItself(fields[k]);
      }
      assert Plain(d).fields == fields;
  }

  /** Without booleans, equal means identical. */
  lemma SameIsIdentical(a: Doc, b: Doc)
    requires BooleanFree(a) && BooleanFree(b)
    ensures Same(a, b) <==> a == b
  {
    PlainIsItself(a);
    PlainIsItself(b);
  }

  // ---- applying, without booleans ----

  predicate Free(d: Option<Doc>) { d.Some? ==> BooleanFree(d.value) }

  lemma {:induction false} GetIsFree(doc: Option<Doc>, path: Path)
    requires Free(doc)
    ensures Free(Get(doc, path))
    decreases |path|
  {
    if path != [] && doc.Some? {
      match (doc.value, path[0])
      case (Object(f), Key(k)) => GetIsFree(Field(f, k), path[1..]);
      case (Array(s), At(i)) => GetIsFree(Item(s, i), path[1..]);
      case (_, _) =>
    }
  }

  lemma {:induction false} PutIsFree(doc: Option<Doc>, path: Path, v: Option<Doc>)
    requires Free(doc) && Free(v)
    ensures Free(Put(doc, path, v))
    decreases |path|
  {
    if path != [] && doc.Some? {
      match (doc.value, path[0])
      case (Object(f), Key(k)) => PutIsFree(Field(f, k), path[1..], v);
      case (Array(s), At(i)) => PutIsFree(Item(s, i), path[1..], v);
      case (_, _) =>
    }
  }

  lemma {:induction false} ApplyIsFree(doc: Option<Doc>, ds: seq<Difference>)
    requires Free(doc) && forall d :: d in ds ==> Free(d.candidate)
    ensures Free(Apply(doc, ds))
    decreases |ds|
  {
    if ds != [] {
      PutIsFree(doc, ds[0].path, ds[0].candidate);
      ApplyIsFree(Put(doc, ds[0].path, ds[0].candidate), ds[1..]);
    }
  }

  /** Without booleans, applying the differences to the reference yields the candidate itself. */
  lemma ApplyYieldsCandidateItself(reference: Doc, candidate: Doc)
    requires BooleanFree(reference) && BooleanFree(candidate)
    ensures Apply(Some(reference), Differences(reference, candidate, [])) == Some(candidate)
  {
    hide Differences, Apply, Same, BooleanFree;
    var ds := Differences(reference, candidate, []);
    ApplyYieldsCandidate(reference, candidate);
    forall d | d in ds ensures Free(d.candidate) {
      CandidateIsFree(reference, candidate, d);
    }
    ApplyIsFree(Some(reference), ds);
    SameIsIdentical(Apply(Some(reference), ds).value, candidate);
  }

  lemma CandidateIsFree(reference: Doc, candidate: Doc, d: Difference)
    requires d in Differences(reference, candidate, []) && BooleanFree(candidate)
    ensures Free(d.candidate)
  {
    hide Differences, Get, BooleanFree;
    EachIsReal(reference, candidate, d);
    GetIsFree(Some(candidate), d.path);
  }

  // ---- which differences are listed ----

  /** Both sides hold an object, or both hold a list. */
  predicate Alike(l: Option<Doc>, r: Option<Doc>) {
    l.Some? && r.Some? && ((l.value.Object? && r.value.Object?) || (l.value.Array? && r.value.Array?))
  }

  /** `d` names what the sides hold at its path, these differ and are not both objects or both
      lists, and everywhere above the path both sides hold an object or both hold a list. */
  predicate Listed(l: Option<Doc>, r: Option<Doc>, d: Difference) {
    && d.reference == Get(l, d.path) && d.candidate == Get(r, d.path)
    && !SameAt(d.reference, d.candidate) && !Alike(d.reference, d.candidate)
    && forall n :: 0 <= n < |d.path| ==> Alike(Get(l, d.path[..n]), Get(r, d.path[..n]))
  }

  function Tail(d: Difference): Difference
    requires d.path != []
  {
    d.(path := d.path[1..])
  }

  /** The differences between what may be missing on a side. */
  function Between(l: Option<Doc>, r: Option<Doc>): seq<Difference> {
    if l.Some? && r.Some? then Differences(l.value, r.value, []) else OneSided(l, r, [])
  }

  lemma {:induction false} SameGet(l: Option<Doc>, r: Option<Doc>, path: Path)
    requires SameAt(l, r)
    ensures SameAt(Get(l, path), Get(r, path))
    decreases |path|
  {
    hide Same;
    if path != [] && l.Some? {
      SameReflexive(l.value, r.value);
      SameExactly(l.value, r.value);
      match (l.value, r.value, path[0])
      case (Object(f), Object(g), Key(k)) =>
        SameObjects(f, g);
        assert SameAt(Field(f, k), Field(g, k));
        SameGet(Field(f, k), Field(g, k), path[1..]);
      case (Array(s), Array(t), At(i)) => SameGet(Item(s, i), Item(t, i), path[1..]);
      case (_, _, _) =>
    }
  }

  lemma NothingListed(l: Option<Doc>, r: Option<Doc>, d: Difference)
    requires SameAt(l, r)
    ensures !Listed(l, r, d)
  {
    SameGet(l, r, d.path);
    hide SameAt, Get;
  }

  lemma GetNone(path: Path)
    ensures Get(None, path) == None
  {
  }

  /** Listed below a step, when both sides hold what `l` and `r` hold at that step. */
  lemma ListedBelow(l: Option<Doc>, r: Option<Doc>, l': Option<Doc>, r': Option<Doc>, d: Difference)
    requires d.path != [] && Alike(l, r)
    requires forall p: Path :: p != [] && p[0] == d.path[0] ==> Get(l, p) == Get(l', p[1..])
    requires forall p: Path :: p != [] && p[0] == d.path[0] ==> Get(r, p) == Get(r', p[1..])
    ensures Listed(l, r, d) <==> Listed(l', r', Tail(d))
  {
    hide SameAt, Alike;
    var p := d.path;
    assert p[..0] == [];
    assert Get(l, []) == l && Get(r, []) == r;
    forall n | 0 <= n < |p| - 1
      ensures Get(l, p[..n + 1]) == Get(l', p[1..][..n]) && Get(r, p[..n + 1]) == Get(r', p[1..][..n])
    {
      assert p[..n + 1][1..] == p[1..][..n];
    }
    if Listed(l, r, d) {
      forall n | 0 <= n < |p| - 1 ensures Alike(Get(l', p[1..][..n]), Get(r', p[1..][..n])) {
        assert Alike(Get(l, p[..n + 1]), Get(r, p[..n + 1]));
      }
    }
    if Listed(l', r', Tail(d)) {
      forall n | 0 <= n < |p| ensures Alike(Get(l, p[..n]), Get(r, p[..n])) {
        if n > 0 {
          assert Alike(Get(l', p[1..][..n - 1]), Get(r', p[1..][..n - 1]));
        }
      }
    }
  }

  lemma ListedInObjects(f: map<string, Doc>, g: map<string, Doc>, d: Difference)
    ensures Listed(Some(Object(f)), Some(Object(g)), d) <==>
            && d.path != [] && d.path[0].Key?
            && Listed(Field(f, d.path[0].key), Field(g, d.path[0].key), Tail(d))
  {
    hide SameAt, Field;
    var l, r := Some(Object(f)), Some(Object(g));
    if d.path != [] {
      if d.path[0].Key? {
        ListedBelow(l, r, Field(f, d.path[0].key), Field(g, d.path[0].key), d);
      } else {
        assert SameAt(None, None) by { NoneSame(); }
        assert Get(l, d.path) == None && Get(r, d.path) == None;
      }
    }
  }

  lemma NoneSame()
    ensures SameAt(None, None)
  {
  }

  lemma ListedInArrays(s: seq<Doc>, t: seq<Doc>, d: Difference)
    ensures Listed(Some(Array(s)), Some(Array(t)), d) <==>
            && d.path != [] && d.path[0].At?
            && Listed(Item(s, d.path[0].index), Item(t, d.path[0].index), Tail(d))
  {
    hide SameAt, Item;
    var l, r := Some(Array(s)), Some(Array(t));
    if d.path != [] {
      if d.path[0].At? {
        ListedBelow(l, r, Item(s, d.path[0].index), Item(t, d.path[0].index), d);
      } else {
        assert SameAt(None, None) by { NoneSame(); }
        assert Get(l, d.path) == None && Get(r, d.path) == None;
      }
    }
  }

  lemma InUnder(step: Step, ds: seq<Difference>, d: Difference)
    ensures d in Under([step], ds) <==> d.path != [] && d.path[0] == step && Tail(d) in ds
  {
    if d in Under([step], ds) {
      var e := FindUnder([step], ds, d);
      assert d.path[1..] == e.path;
      assert Tail(d) == e;
    }
    if d.path != [] && d.path[0] == step && Tail(d) in ds {
      var i :| 0 <= i < |ds| && ds[i] == Tail(d);
      assert [step] + d.path[1..] == d.path;
      assert Under([step], ds)[i] == d;
    }
  }

  lemma {:induction false} InFields(f: map<string, Doc>, g: map<string, Doc>, keys: seq<string>, d: Difference)
    ensures d in FieldDifferences(f, g, keys, []) <==>
            && d.path != [] && d.path[0].Key? && d.path[0].key in keys
            && Tail(d) in Between(Field(f, d.path[0].key), Field(g, d.path[0].key))
    decreases |keys|
  {
    hide Differences, OneSided;
    if keys != [] {
      var k := keys[0];
      var head := FieldHead(f, g, k, []);
      FieldHeadUnder(f, g, k);
      InUnder(Key(k), Between(Field(f, k), Field(g, k)), d);
      InFields(f, g, keys[1..], d);
      assert FieldDifferences(f, g, keys, []) == head + FieldDifferences(f, g, keys[1..], []);
      assert keys == [k] + keys[1..];
    }
  }

  lemma FieldHeadUnder(f: map<string, Doc>, g: map<string, Doc>, k: string)
    ensures FieldHead(f, g, k, []) == Under([Key(k)], Between(Field(f, k), Field(g, k)))
  {
    hide Differences, OneSided;
    assert [] + [Key(k)] == [Key(k)];
    if k in f && k in g {
      PathIsPrefix(f[k], g[k], [Key(k)]);
    } else {
      UnderOne([Key(k)], Field(f, k), Field(g, k));
    }
  }

  lemma ItemHeadUnder(s: seq<Doc>, t: seq<Doc>, i: nat)
    ensures ItemHead(s, t, i, []) == Under([At(i)], Between(Item(s, i), Item(t, i)))
  {
    hide Differences, OneSided;
    assert [] + [At(i)] == [At(i)];
    if i < |s| && i < |t| {
      PathIsPrefix(s[i], t[i], [At(i)]);
    } else {
      UnderOne([At(i)], Item(s, i), Item(t, i));
    }
  }

  lemma {:induction false} InItems(s: seq<Doc>, t: seq<Doc>, i: nat, d: Difference)
    ensures d in ItemDifferences(s, t, i, []) <==>
            && d.path != [] && d.path[0].At? && i <= d.path[0].index < Larger(|s|, |t|)
            && Tail(d) in Between(Item(s, d.path[0].index), Item(t, d.path[0].index))
    decreases Larger(|s|, |t|) - i
  {
    hide Differences, OneSided;
    if i < Larger(|s|, |t|) {
      ItemHeadUnder(s, t, i);
      InUnder(At(i), Between(Item(s, i), Item(t, i)), d);
      InItems(s, t, i + 1, d);
      assert ItemDifferences(s, t, i, []) == ItemHead(s, t, i, []) + ItemDifferences(s, t, i + 1, []);
    }
  }

  /** Where a side holds nothing: only the whole, if the other side holds something. */
  lemma ListedOneSided(l: Option<Doc>, r: Option<Doc>, d: Difference)
    requires l.None? || r.None?
    ensures d in OneSided(l, r, []) <==> Listed(l, r, d)
  {
    if d.path == [] {
      assert Get(l, []) == l && Get(r, []) == r;
    } else {
      assert d.path[..0] == [];
      assert !Alike(Get(l, d.path[..0]), Get(r, d.path[..0]));
    }
  }

  /** The differences listed are exactly the values that differ at the deepest places the two
      documents still have in common. */
  lemma {:induction false} ListedExactly(reference: Doc, candidate: Doc, d: Difference)
    ensures d in Differences(reference, candidate, []) <==> Listed(Some(reference), Some(candidate), d)
    decreases reference, 2
  {
    if Same(reference, candidate) {
      NothingListed(Some(reference), Some(candidate), d);
    } else {
      match (reference, candidate)
      case (Object(f), Object(g)) => ListedFields(f, g, d);
      case (Array(s), Array(t)) => ListedItems(s, t, d);
      case (_, _) => ListedLeaf(reference, candidate, d);
    }
    hide Listed, Same;
  }

  lemma ListedLeaf(a: Doc, b: Doc, d: Difference)
    requires !Same(a, b) && !Alike(Some(a), Some(b))
    ensures d == Difference([], Some(a), Some(b)) <==> Listed(Some(a), Some(b), d)
  {
    hide Same;
    SameReflexive(a, b);
    if d.path != [] {
      assert d.path[..0] == [];
      assert !Alike(Get(Some(a), d.path[..0]), Get(Some(b), d.path[..0]));
    }
  }

  lemma {:induction false} ListedFields(f: map<string, Doc>, g: map<string, Doc>, d: Difference)
    ensures d in FieldDifferences(f, g, Sorted(f.Keys + g.Keys), [])
            <==> Listed(Some(Object(f)), Some(Object(g)), d)
    decreases Object(f), 0
  {
    hide Listed, Differences, OneSided, Sorted;
    InFields(f, g, Sorted(f.Keys + g.Keys), d);
    ListedInObjects(f, g, d);
    if d.path != [] && d.path[0].Key? {
      var k := d.path[0].key;
      if k in f && k in g {
        ListedExactly(f[k], g[k], Tail(d));
      } else {
        ListedWhereAbsent(Field(f, k), Field(g, k), Tail(d));
      }
    }
  }

  lemma {:induction false} ListedItems(s: seq<Doc>, t: seq<Doc>, d: Difference)
    ensures d in ItemDifferences(s, t, 0, []) <==> Listed(Some(Array(s)), Some(Array(t)), d)
    decreases Array(s), 0
  {
    hide Listed, Differences, OneSided;
    InItems(s, t, 0, d);
    ListedInArrays(s, t, d);
    if d.path != [] && d.path[0].At? {
      var i := d.path[0].index;
      if i < |s| && i < |t| {
        ListedExactly(s[i], t[i], Tail(d));
      } else {
        ListedWhereAbsent(Item(s, i), Item(t, i), Tail(d));
      }
    }
  }

  lemma ListedWhereAbsent(l: Option<Doc>, r: Option<Doc>, d: Difference)
    requires l.None? || r.None?
    ensures d in Between(l, r) <==> Listed(l, r, d)
    ensures l == r == None ==> !Listed(l, r, d)
  {
    ListedOneSided(l, r, d);
    hide Listed, Differences;
  }

  // ---- in which order ----

  predicate StepBefore(a: Step, b: Step) {
    || (a.Key? && b.Key? && Before(a.key, b.key))
    || (a.At? && b.At? && a.index < b.index)
  }

  /** The paths part at some step, where `p` goes on with the smaller key or position. */
  ghost predicate PathBefore(p: Path, q: Path) {
    exists n :: 0 <= n < |p| && n < |q| && p[..n] == q[..n] && StepBefore(p[n], q[n])
  }

  ghost predicate InOrder(ds: seq<Difference>) {
    forall i, j :: 0 <= i < j < |ds| ==> PathBefore(ds[i].path, ds[j].path)
  }

  lemma ShiftBefore(step: Step, p: Path, q: Path)
    requires PathBefore(p, q)
    ensures PathBefore([step] + p, [step] + q)
  {
    hide StepBefore;
    var n :| 0 <= n < |p| && n < |q| && p[..n] == q[..n] && StepBefore(p[n], q[n]);
    var p', q' := [step] + p, [step] + q;
    assert p'[..n + 1] == [step] + p[..n] && q'[..n + 1] == [step] + q[..n];
    assert StepBefore(p'[n + 1], q'[n + 1]);
  }

  lemma UnderInOrder(step: Step, ds: seq<Difference>)
    requires InOrder(ds)
    ensures InOrder(Under([step], ds))
  {
    hide PathBefore;
    var es := Under([step], ds);
    forall i, j | 0 <= i < j < |es| ensures PathBefore(es[i].path, es[j].path) {
      ShiftBefore(step, ds[i].path, ds[j].path);
    }
  }

  lemma HeadsBefore(p: Path, q: Path)
    requires p != [] && q != [] && StepBefore(p[0], q[0])
    ensures PathBefore(p, q)
  {
    assert p[..0] == q[..0];
  }

  lemma JoinInOrder(ds: seq<Difference>, es: seq<Difference>)
    requires InOrder(ds) && InOrder(es)
    requires forall d, e :: d in ds && e in es ==> PathBefore(d.path, e.path)
    ensures InOrder(ds + es)
  {
    hide PathBefore;
  }

  lemma {:induction false} FieldsInOrder(f: map<string, Doc>, g: map<string, Doc>, keys: seq<string>)
    requires Orders.Ascending(keys, Before)
    ensures InOrder(FieldDifferences(f, g, keys, []))
    decreases Object(f), 0, |keys|
  {
    if keys != [] {
      var k := keys[0];
      var head, rest := FieldHead(f, g, k, []), FieldDifferences(f, g, keys[1..], []);
      FieldHeadUnder(f, g, k);
      if k in f && k in g {
        DifferencesInOrder(f[k], g[k]);
      }
      UnderInOrder(Key(k), Between(Field(f, k), Field(g, k)));
      FieldsInOrder(f, g, keys[1..]);
      forall d, e | d in head && e in rest ensures PathBefore(d.path, e.path) {
        InUnder(Key(k), Between(Field(f, k), Field(g, k)), d);
        InFields(f, g, keys[1..], e);
        FirstIsBefore(keys, e.path[0].key);
        HeadsBefore(d.path, e.path);
      }
      JoinInOrder(head, rest);
    }
  }

  lemma FirstIsBefore(keys: seq<string>, k: string)
    requires keys != [] && Orders.Ascending(keys, Before) && k in keys[1..]
    ensures Before(keys[0], k)
  {
    hide Before;
    var i :| 0 <= i < |keys| - 1 && keys[1..][i] == k;
    assert keys[i + 1] == k;
  }

  lemma {:induction false} ItemsInOrder(s: seq<Doc>, t: seq<Doc>, i: nat)
    ensures InOrder(ItemDifferences(s, t, i, []))
    decreases Array(s), 0, Larger(|s|, |t|) - i
  {
    if i < Larger(|s|, |t|) {
      var head, rest := ItemHead(s, t, i, []), ItemDifferences(s, t, i + 1, []);
      ItemHeadUnder(s, t, i);
      if i < |s| && i < |t| {
        DifferencesInOrder(s[i], t[i]);
      }
      UnderInOrder(At(i), Between(Item(s, i), Item(t, i)));
      ItemsInOrder(s, t, i + 1);
      forall d, e | d in head && e in rest ensures PathBefore(d.path, e.path) {
        InUnder(At(i), Between(Item(s, i), Item(t, i)), d);
        InItems(s, t, i + 1, e);
        HeadsBefore(d.path, e.path);
      }
      JoinInOrder(head, rest);
    }
  }

  /** The differences come in the order of their paths, no path twice. */
  lemma {:induction false} DifferencesInOrder(reference: Doc, candidate: Doc)
    ensures InOrder(Differences(reference, candidate, []))
    decreases reference, 1, 0
  {
    hide Same;
    if !Same(reference, candidate) {
      match (reference, candidate)
      case (Object(f), Object(g)) =>
        SortedAscends(f.Keys + g.Keys);
        FieldsInOrder(f, g, Sorted(f.Keys + g.Keys));
      case (Array(s), Array(t)) => ItemsInOrder(s, t, 0);
      case (_, _) =>
    }
  }

  lemma SortedAscends(s: set<string>)
    ensures Orders.Ascending(Sorted(s), Before)
  {
    BeforeIsTotal();
    Orders.SortedAscends(s, Before);
  }

  // ---- rendered paths ----

  /** One more key is separated by a dot unless it comes first; one more position is bracketed. */
  lemma {:induction false} RenderedStep(start: string, path: Path, step: Step)
    ensures var before, after := RenderPath(start, path), RenderPath(start, path + [step]);
            match step
            case Key(k) => after == (if before == [] then k else before + "." + k)
            case At(i) => after == before + "[" + Decimal(i) + "]"
    decreases |path|
  {
    if path != [] {
      assert (path + [step])[1..] == path[1..] + [step] && (path + [step])[0] == path[0];
      RenderedStep(Extend(start, path[0]), path[1..], step);
    } else {
      assert path + [step] == [step];
      assert RenderPath(start, [step]) == RenderPath(Extend(start, step), [step][1..]);
    }
  }
}
