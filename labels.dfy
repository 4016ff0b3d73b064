/** The label registry of ar-model/app.js: turning a parsed label file into an
    ordered table of class names, and turning a table entry into a display name. */
module Labels {
  import opened Wrappers
  import opened Text

  /** A value produced by `JSON.parse`. An object lists its own properties in
      enumeration order (the order `Object.entries` reports), keys distinct.
      JSON numbers are modelled by their integer values. */
  datatype Json =
    | JNull
    | JBool(b: bool)
    | JNum(n: int)
    | JStr(s: string)
    | JArr(items: seq<Json>)
    | JObj(props: seq<(string, Json)>)

  /** `String(v)`: a string is itself, `null` prints as "null", an array is the
      comma-joined strings of its elements (a `null` element printing as the empty
      string, as `Array.prototype.join` does) and a plain object is "[object Object]". */
  function JsString(v: Json): (r: string)
    ensures v.JStr? ==> r == v.s
    ensures v.JNum? ==> NumberOfKey(r) == Some(v.n)
    ensures v.JNull? ==> r == "null"
    decreases v
  {
    match v
    case JNull => "null"
    case JBool(b) => if b then "true" else "false"
    case JNum(n) =>
      NumberOfIntString(n);
      IntToString(n)
    case JStr(s) => s
    case JArr(items) =>
      Join(seq(|items|, i requires 0 <= i < |items| =>
             if items[i].JNull? then "" else JsString(items[i])), ",")
    case JObj(_) => "[object Object]"
  }

  /** `xs.map(String)`. */
  function MapString(xs: seq<Json>): (r: seq<string>)
    ensures |r| == |xs|
    ensures forall i :: 0 <= i < |xs| ==> r[i] == JsString(xs[i])
  {
    seq(|xs|, i requires 0 <= i < |xs| => JsString(xs[i]))
  }

  /** The value of property `key`, as `obj[key]` reads it. */
  function Lookup(props: seq<(string, Json)>, key: string): (r: Option<Json>)
    ensures r.Some? <==> exists i :: 0 <= i < |props| && props[i].0 == key
    ensures r.Some? ==> exists i :: 0 <= i < |props| && props[i] == (key, r.value)
                                    && forall j :: 0 <= j < i ==> props[j].0 != key
  {
    if props == [] then None
    else if props[0].0 == key then Some(props[0].1)
    else
      var r := Lookup(props[1..], key);
      if r.Some? then
        var i :| 0 <= i < |props[1..]| && props[1..][i] == (key, r.value)
                 && forall j :: 0 <= j < i ==> props[1..][j].0 != key;
        assert props[i + 1] == props[1..][i];
        assert forall j :: 1 <= j < i + 1 ==> props[j] == props[1..][j - 1];
        r
      else
        assert forall i :: 1 <= i < |props| ==> props[i] == props[1..][i - 1];
        r
  }

  /** `Number(k)` for a property key, when it is numeric. A blank key is 0, and a
      decimal integer with an optional sign and surrounding white space is its value;
      every other key is treated as `NaN`. */
  function NumberOfKey(k: string): Option<int>
  {
    var t := Trim(k);
    if t == [] then Some(0)
    else if AllDigits(t) then Some(DigitsValue(t))
    else if |t| > 1 && t[0] == '+' && AllDigits(t[1..]) then Some(DigitsValue(t[1..]))
    else if |t| > 1 && t[0] == '-' && AllDigits(t[1..]) then
      var magnitude: int := DigitsValue(t[1..]);
      Some(-magnitude)
    else None
  }

  /** `Number(k)` is 0 for a blank key and otherwise numeric only for decimal digits,
      possibly after one sign; a negative value needs the minus sign. */
  lemma NumberOfKeyShape(k: string)
    ensures Trim(k) == [] ==> NumberOfKey(k) == Some(0)
    ensures NumberOfKey(k).Some? && Trim(k) != [] ==>
              var t := Trim(k);
              && AllDigits(t[1..])
              && (IsDigit(t[0]) || (|t| > 1 && (t[0] == '+' || t[0] == '-')))
              && (NumberOfKey(k).value < 0 ==> t[0] == '-')
  {
    var t := Trim(k);
    if t != [] && AllDigits(t) {
      assert forall i :: 0 <= i < |t[1..]| ==> t[1..][i] == t[i + 1];
    }
  }

  /** `Number(String(n))` is `n` for every integer `n`. */
  lemma NumberOfIntString(n: int)
    ensures NumberOfKey(IntToString(n)) == Some(n)
  {
    if n >= 0 {
      NumberOfIndexKey(n);
      IntToStringOfNat(n);
    } else {
      var m: nat := -n;
      NumberOfNegativeText(m);
      IntToStringOfNegative(n, m);
    }
  }

  lemma IntToStringOfNat(n: int)
    requires n >= 0
    ensures IntToString(n) == NatToString(n)
  {
  }

  lemma IntToStringOfNegative(n: int, m: nat)
    requires n < 0 && m == -n
    ensures IntToString(n) == "-" + NatToString(m)
  {
  }

  lemma NumberOfNegativeText(m: nat)
    ensures NumberOfKey("-" + NatToString(m)) == Some(-(m as int))
  {
    var d := NatToString(m);
    NatToStringRoundTrip(m);
    NumberOfNegative(d, m);
  }

  /** A minus sign followed by digits reads as the negated number. */
  lemma NumberOfNegative(d: string, v: nat)
    requires d != [] && AllDigits(d) && DigitsValue(d) == v
    ensures NumberOfKey("-" + d) == Some(-(v as int))
  {
    var s := "-" + d;
    assert !IsSpace(s[0]) && !IsSpace(s[|s| - 1]);
    assert !AllDigits(s) by {
      assert !IsDigit(s[0]);
    }
    assert s[1..] == d;
  }

  /** `Number(k)` of every property key, in enumeration order. */
  function KeyNumbers(props: seq<(string, Json)>): (ks: seq<Option<int>>)
    ensures |ks| == |props|
    ensures forall i :: 0 <= i < |props| ==> ks[i] == NumberOfKey(props[i].0)
  {
    seq(|props|, i requires 0 <= i < |props| => NumberOfKey(props[i].0))
  }

  /** The positions from `from` on of `ks` that hold a number, ascending. */
  function SomePositions(ks: seq<Option<int>>, from: nat): (ps: seq<nat>)
    requires from <= |ks|
    ensures forall i :: 0 <= i < |ps| ==> from <= ps[i] < |ks| && ks[ps[i]].Some?
    ensures forall i, j :: 0 <= i < j < |ps| ==> ps[i] < ps[j]
    ensures forall p :: from <= p < |ks| && ks[p].Some? ==> p in ps
    decreases |ks| - from
  {
    if from == |ks| then []
    else (if ks[from].Some? then [from] else []) + SomePositions(ks, from + 1)
  }

  /** `Object.entries(obj).filter(([k]) => !isNaN(Number(k)))`, each entry paired
      with its numeric key: one entry per property with a numeric key, in
      enumeration order. */
  function NumericEntries(props: seq<(string, Json)>): (r: seq<(int, Json)>)
    ensures |r| <= |props|
    ensures r == [] <==> forall i :: 0 <= i < |props| ==> NumberOfKey(props[i].0).None?
  {
    if props == [] then []
    else
      var rest := NumericEntries(props[1..]);
      var k := NumberOfKey(props[0].0);
      TailIndex(props);
      if k.Some? then [(k.value, props[0].1)] + rest else rest
  }

  lemma TailIndex<T>(s: seq<T>)
    requires s != []
    ensures forall i :: 1 <= i < |s| ==> s[i] == s[1..][i - 1]
  {
  }

  /** The numeric entries are exactly the properties with a numeric key, in
      enumeration order, each paired with the number its key denotes. */
  lemma {:induction false} NumericEntriesLists(props: seq<(string, Json)>)
    ensures var ks := KeyNumbers(props);
            var ps := SomePositions(ks, 0);
            var r := NumericEntries(props);
            && |r| == |ps|
            && forall i :: 0 <= i < |ps| ==> r[i] == (ks[ps[i]].value, props[ps[i]].1)
  {
    NumericEntriesFrom(props, 0);
    assert props[0..] == props;
  }

  lemma {:induction false} NumericEntriesFrom(props: seq<(string, Json)>, from: nat)
    requires from <= |props|
    ensures var ks := KeyNumbers(props);
            var ps := SomePositions(ks, from);
            var r := NumericEntries(props[from..]);
            && |r| == |ps|
            && forall i :: 0 <= i < |ps| ==> r[i] == (ks[ps[i]].value, props[ps[i]].1)
    decreases |props| - from
  {
    if from < |props| {
      NumericEntriesFrom(props, from + 1);
      NumericEntriesStep(props, from);
      PositionsCons(KeyNumbers(props), props, from, NumericEntries(props[from + 1..]));
    }
  }

  /** Putting the entry at `from` (if numbered) in front of the entries listed by the
      positions after it lists the entries of the positions from `from` on. */
  lemma PositionsCons(ks: seq<Option<int>>, props: seq<(string, Json)>, from: nat, rest: seq<(int, Json)>)
    requires from < |ks| == |props|
    requires var ps := SomePositions(ks, from + 1);
             |rest| == |ps| && forall i :: 0 <= i < |ps| ==> rest[i] == (ks[ps[i]].value, props[ps[i]].1)
    ensures var ps := SomePositions(ks, from);
            var r := (if ks[from].Some? then [(ks[from].value, props[from].1)] else []) + rest;
            |r| == |ps| && forall i :: 0 <= i < |ps| ==> r[i] == (ks[ps[i]].value, props[ps[i]].1)
  {
  }

  /** One step of the filter, with the key's number read from `KeyNumbers`. */
  lemma NumericEntriesStep(props: seq<(string, Json)>, from: nat)
    requires from < |props|
    ensures var k := KeyNumbers(props)[from];
            NumericEntries(props[from..]) ==
              (if k.Some? then [(k.value, props[from].1)] else []) + NumericEntries(props[from + 1..])
  {
    assert props[from..][1..] == props[from + 1..];
    assert props[from..][0] == props[from];
  }

  function Values<V>(s: seq<(int, V)>): (r: seq<V>)
    ensures |r| == |s| && forall i :: 0 <= i < |s| ==> r[i] == s[i].1
  {
    seq(|s|, i requires 0 <= i < |s| => s[i].1)
  }

  predicate SortedByKey<V>(s: seq<(int, V)>) {
    forall i, j :: 0 <= i < j < |s| ==> s[i].0 <= s[j].0
  }

  /** The entries of `s` whose key is `k`, in their order in `s`. */
  function WithKey<V>(s: seq<(int, V)>, k: int): seq<(int, V)>
  {
    if s == [] then [] else (if s[0].0 == k then [s[0]] else []) + WithKey(s[1..], k)
  }

  /** Insert `e` in front of the first entry whose key is not smaller. */
  function InsertByKey<V>(e: (int, V), s: seq<(int, V)>): (r: seq<(int, V)>)
    requires SortedByKey(s)
    ensures |r| == |s| + 1
    ensures SortedByKey(r)
    ensures multiset(r) == multiset(s) + multiset{e}
  {
    if s == [] || e.0 <= s[0].0 then [e] + s
    else
      var t := InsertByKey(e, s[1..]);
      assert multiset([s[0]] + t) == multiset{s[0]} + multiset(t);
      assert s == [s[0]] + s[1..];
      KeysAtLeast(s[0].0, e, s[1..], t);
      [s[0]] + t
  }

  /** A permutation of `s` and `e` has no key below a bound they all meet. */
  lemma KeysAtLeast<V>(b: int, e: (int, V), s: seq<(int, V)>, t: seq<(int, V)>)
    requires multiset(t) == multiset(s) + multiset{e}
    requires e.0 >= b && forall i :: 0 <= i < |s| ==> s[i].0 >= b
    ensures forall j :: 0 <= j < |t| ==> t[j].0 >= b
  {
    forall j | 0 <= j < |t| ensures t[j].0 >= b {
      assert t[j] in multiset(t);
      if t[j] != e {
        assert t[j] in multiset(s);
      }
    }
  }

  /** The comparator sort `(a, b) => Number(a[0]) - Number(b[0])`. The sort is an
      insertion sort; what a caller may rely on is its contract and `SortByKeyStable`. */
  function SortByKey<V>(s: seq<(int, V)>): (r: seq<(int, V)>)
    ensures |r| == |s|
    ensures SortedByKey(r)
    ensures multiset(r) == multiset(s)
  {
    if s == [] then []
    else
      assert s == [s[0]] + s[1..];
      InsertByKey(s[0], SortByKey(s[1..]))
  }

  lemma {:induction false} InsertByKeyStable<V>(e: (int, V), s: seq<(int, V)>, k: int)
    requires SortedByKey(s)
    ensures WithKey(InsertByKey(e, s), k) == (if e.0 == k then [e] else []) + WithKey(s, k)
  {
    if s == [] || e.0 <= s[0].0 {
      StableInFront(e, s, k);
    } else {
      InsertByKeyStable(e, s[1..], k);
      StableBehind(e, s, k);
    }
  }

  /** `e` inserted at the front comes before every entry of its key. */
  lemma StableInFront<V>(e: (int, V), s: seq<(int, V)>, k: int)
    requires SortedByKey(s) && (s == [] || e.0 <= s[0].0)
    ensures WithKey(InsertByKey(e, s), k) == (if e.0 == k then [e] else []) + WithKey(s, k)
  {
    assert ([e] + s)[1..] == s;
  }

  /** `e` inserted behind `s[0]`, whose key is smaller, keeps the order of its key. */
  lemma StableBehind<V>(e: (int, V), s: seq<(int, V)>, k: int)
    requires SortedByKey(s) && s != [] && s[0].0 < e.0
    requires WithKey(InsertByKey(e, s[1..]), k) == (if e.0 == k then [e] else []) + WithKey(s[1..], k)
    ensures WithKey(InsertByKey(e, s), k) == (if e.0 == k then [e] else []) + WithKey(s, k)
  {
    InsertBehind(e, s);
    WithKeyCons(s[0], InsertByKey(e, s[1..]), k);
    WithKeyHead(s, k);
    SwapEmpty(if s[0].0 == k then [s[0]] else [], if e.0 == k then [e] else [], WithKey(s[1..], k));
  }

  lemma WithKeyHead<V>(s: seq<(int, V)>, k: int)
    requires s != []
    ensures WithKey(s, k) == (if s[0].0 == k then [s[0]] else []) + WithKey(s[1..], k)
  {
  }

  /** Two prefixes commute when one of them is empty. */
  lemma SwapEmpty<T>(h: seq<T>, e: seq<T>, w: seq<T>)
    requires h == [] || e == []
    ensures h + (e + w) == e + (h + w)
  {
    if h == [] {
      assert h + (e + w) == e + w;
      assert h + w == w;
    } else {
      assert e + w == w;
      assert e + (h + w) == h + w;
    }
  }

  lemma InsertBehind<V>(e: (int, V), s: seq<(int, V)>)
    requires SortedByKey(s) && s != [] && s[0].0 < e.0
    ensures InsertByKey(e, s) == [s[0]] + InsertByKey(e, s[1..])
  {
  }

  lemma WithKeyCons<V>(x: (int, V), t: seq<(int, V)>, k: int)
    ensures WithKey([x] + t, k) == (if x.0 == k then [x] else []) + WithKey(t, k)
  {
    assert ([x] + t)[1..] == t;
  }

  /** The sort is stable: for every key, the entries with that key keep their
      relative order. With `SortByKey`'s own contract (sorted, a permutation) this
      is everything `Array.prototype.sort` promises for this comparator. */
  lemma {:induction false} SortByKeyStable<V>(s: seq<(int, V)>, k: int)
    ensures WithKey(SortByKey(s), k) == WithKey(s, k)
  {
    if s != [] {
      SortByKeyStable(s[1..], k);
      InsertByKeyStable(s[0], SortByKey(s[1..]), k);
    }
  }

  /** An already sorted sequence is left as it is. */
  lemma {:induction false} SortByKeyOfSorted<V>(s: seq<(int, V)>)
    requires SortedByKey(s)
    ensures SortByKey(s) == s
  {
    if s != [] {
      SortByKeyOfSorted(s[1..]);
      assert s == [s[0]] + s[1..];
    }
  }

  /** `obj.labels` is an array. */
  predicate WrapsArray(props: seq<(string, Json)>) {
    Lookup(props, "labels").Some? && Lookup(props, "labels").value.JArr?
  }

  /** `normalizeLabels(obj)`: an array, an object wrapping an array in `labels`, or
      a sparse object keyed by class index, turned into a list of strings; `None`
      stands for the `null` the function returns otherwise. */
  function NormalizeLabels(v: Json): (r: Option<seq<string>>)
    ensures v.JArr? ==> r == Some(MapString(v.items))
    ensures v.JObj? && WrapsArray(v.props) ==> r == Some(MapString(Lookup(v.props, "labels").value.items))
    ensures v.JObj? && !WrapsArray(v.props) ==>
              (r.Some? <==> exists i :: 0 <= i < |v.props| && NumberOfKey(v.props[i].0).Some?)
    ensures v.JObj? && !WrapsArray(v.props) && r.Some? ==> |r.value| == |NumericEntries(v.props)|
    ensures !v.JArr? && !v.JObj? ==> r.None?
  {
    match v
    case JArr(items) => Some(MapString(items))
    case JObj(props) =>
      if WrapsArray(props) then Some(MapString(Lookup(props, "labels").value.items))
      else
        var entries := SortByKey(NumericEntries(props));
        if |entries| > 0 then Some(MapString(Values(entries))) else None
    case _ => None
  }

  /** For a sparse object, the table lists the values of the numeric-keyed entries
      (non-numeric keys dropped) by ascending key, entries with equal keys in their
      enumeration order. */
  lemma NormalizeSparse(props: seq<(string, Json)>)
    requires !WrapsArray(props)
    requires NumericEntries(props) != []
    ensures var sorted := SortByKey(NumericEntries(props));
            && SortedByKey(sorted)
            && multiset(sorted) == multiset(NumericEntries(props))
            && (forall k :: WithKey(sorted, k) == WithKey(NumericEntries(props), k))
            && NormalizeLabels(JObj(props)) == Some(MapString(Values(sorted)))
  {
    forall k ensures WithKey(SortByKey(NumericEntries(props)), k) == WithKey(NumericEntries(props), k) {
      SortByKeyStable(NumericEntries(props), k);
    }
  }

  /** The object `{"from": items[0], "from+1": items[1], ...}`. */
  function DenseObject(items: seq<Json>, from: nat): (props: seq<(string, Json)>)
    ensures |props| == |items|
    ensures forall i :: 0 <= i < |items| ==> props[i] == (NatToString(from + i), items[i])
  {
    if items == [] then [] else [(NatToString(from), items[0])] + DenseObject(items[1..], from + 1)
  }

  function DenseEntries(items: seq<Json>, from: nat): (es: seq<(int, Json)>)
    ensures |es| == |items|
    ensures forall i :: 0 <= i < |items| ==> es[i] == (from + i, items[i])
  {
    if items == [] then [] else [(from, items[0])] + DenseEntries(items[1..], from + 1)
  }

  lemma NumberOfIndexKey(n: nat)
    ensures NumberOfKey(NatToString(n)) == Some(n)
  {
    var s := NatToString(n);
    assert !IsSpace(s[0]) && !IsSpace(s[|s| - 1]);
    NatToStringRoundTrip(n);
  }

  lemma {:induction false} NumericEntriesOfDense(items: seq<Json>, from: nat)
    ensures NumericEntries(DenseObject(items, from)) == DenseEntries(items, from)
  {
    if items != [] {
      NumberOfIndexKey(from);
      NumericEntriesOfDense(items[1..], from + 1);
      assert DenseObject(items, from)[1..] == DenseObject(items[1..], from + 1);
    }
  }

  /** A plain array and the same array wrapped in `{labels: ...}` give one table. */
  lemma WrappedArrayAgrees(items: seq<Json>)
    ensures NormalizeLabels(JObj([("labels", JArr(items))])) == NormalizeLabels(JArr(items))
  {
    assert Lookup([("labels", JArr(items))], "labels") == Some(JArr(items));
  }

  /** A non-empty plain array and the object `{"0": ..., "1": ..., ...}` holding the
      same values give one table. */
  lemma DenseObjectAgrees(items: seq<Json>)
    requires items != []
    ensures NormalizeLabels(JObj(DenseObject(items, 0))) == NormalizeLabels(JArr(items))
  {
    DenseHasNoLabels(items);
    DenseSortedValues(items);
  }

  /** Digit-only keys never spell `labels`. */
  lemma DenseHasNoLabels(items: seq<Json>)
    ensures Lookup(DenseObject(items, 0), "labels").None?
  {
    var props := DenseObject(items, 0);
    forall i | 0 <= i < |props| ensures props[i].0 != "labels" {
      assert AllDigits(props[i].0);
      assert !IsDigit('l');
    }
  }

  /** The numeric entries of the dense object are already in key order and carry
      the array's values. */
  lemma DenseSortedValues(items: seq<Json>)
    ensures Values(SortByKey(NumericEntries(DenseObject(items, 0)))) == items
  {
    NumericEntriesOfDense(items, 0);
    var entries := DenseEntries(items, 0);
    assert SortedByKey(entries);
    SortByKeyOfSorted(entries);
    assert Values(entries) == items;
  }
}
