/** cJSON_Compare: two inclusion loops decide equality of objects. */
module JsonCompare {
  import opened Wrappers
  import opened JsonTree
  import JsonParse

  // ---------------------------------------------------------------- what a tree stands for

  datatype Double = NotANumber | Infinite(negative: bool) | Finite(value: real)

  /** Whether keys are compared with case, and how `strtod` rounds the decimal number it reads. */
  datatype Settings = Settings(caseSensitive: bool, round: real -> Double)

  /** Objects are maps; their keys are kept folded. The two zeros are one number. */
  datatype Value =
    | Nothing
    | Bool(value: bool)
    | Num(double: Double)
    | Str(text: string)
    | RawText(text: string)
    | Arr(items: seq<Value>)
    | Obj(members: map<string, Value>)

  /** `valuedouble`. */
  function DoubleOf(j: Json, opts: Settings): Double
    requires j.Number? || j.NonFinite?
  {
    match j
    case Number(token) => opts.round(JsonParse.Decimal(token))
    case NonFinite(NaN) => NotANumber
    case NonFinite(special) => Infinite(special.MinusInfinity?)
  }

  /** `tolower` in the C locale. */
  function Lower(c: char): char {
    if 'A' <= c <= 'Z' then c - 'A' + 'a' else c
  }

  function Lowered(s: string): (r: string)
    ensures |r| == |s| && forall i :: 0 <= i < |s| ==> r[i] == Lower(s[i])
  {
    seq(|s|, i requires 0 <= i < |s| => Lower(s[i]))
  }

  function Fold(key: string, opts: Settings): string {
    if opts.caseSensitive then key else Lowered(key)
  }

  function Denoted(j: Json, opts: Settings): Value
    decreases j, 1
  {
    match j
    case Invalid => Nothing
    case Null => Nothing
    case False => Bool(false)
    case True => Bool(true)
    case Number(_) => Num(DoubleOf(j, opts))
    case NonFinite(_) => Num(DoubleOf(j, opts))
    case String(text) => Str(text)
    case Raw(text) => RawText(text)
    case Array(child) => Arr(DenotedItems(child, opts))
    case Object(members) => Obj(MapOf(members, opts))
  }

  function DenotedItems(e: Elements, opts: Settings): seq<Value>
    decreases e, 1
  {
    if e.NoElements? then [] else [Denoted(e.value, opts)] + DenotedItems(e.next, opts)
  }

  /** A key stands for the value of the first member that has it. */
  function MapOf(m: Members, opts: Settings): map<string, Value>
    decreases m, 1
  {
    if m.NoMembers? then map[] else MapOf(m.next, opts)[Fold(m.key, opts) := Denoted(m.value, opts)]
  }

  /** No invalid value and no NaN, and every member of an object stands for what the first with its key does. */
  predicate Good(j: Json, opts: Settings)
    decreases j, 1
  {
    match j
    case Invalid => false
    case Number(_) => DoubleOf(j, opts) != NotANumber
    case NonFinite(_) => DoubleOf(j, opts) != NotANumber
    case Array(child) => GoodItems(child, opts)
    case Object(members) => GoodMembers(members, MapOf(members, opts), opts)
    case _ => true
  }

  predicate GoodItems(e: Elements, opts: Settings)
    decreases e, 1
  {
    e.Element? ==> Good(e.value, opts) && GoodItems(e.next, opts)
  }

  /** Every member is good and stands for what the map has under its key. */
  predicate GoodMembers(m: Members, all: map<string, Value>, opts: Settings)
    decreases m, 1
  {
    m.Member? ==>
      && Fold(m.key, opts) in all && Denoted(m.value, opts) == all[Fold(m.key, opts)]
      && Good(m.value, opts) && GoodMembers(m.next, all, opts)
  }

  // ---------------------------------------------------------------- what the code computes

  /** get_object_item: the first member with the key. */
  function Find(m: Members, key: string, opts: Settings): (r: Option<Json>)
    ensures r.Some? ==> r.value < m
  {
    if m.NoMembers? then None
    else if Fold(m.key, opts) == Fold(key, opts) then Some(m.value)
    else Find(m.next, key, opts)
  }

  function Weight(j: Json): (w: nat)
    ensures w > 0
    decreases j, 1
  {
    match j
    case Array(child) => 1 + WeightItems(child)
    case Object(members) => 1 + WeightMembers(members)
    case _ => 1
  }

  function WeightItems(e: Elements): nat
    decreases e, 1
  {
    if e.NoElements? then 0 else Weight(e.value) + WeightItems(e.next)
  }

  function WeightMembers(m: Members): nat
    decreases m, 1
  {
    if m.NoMembers? then 0 else Weight(m.value) + WeightMembers(m.next)
  }

  lemma {:induction false} FindWeight(m: Members, key: string, opts: Settings)
    ensures Find(m, key, opts).Some? ==> Weight(Find(m, key, opts).value) <= WeightMembers(m)
  {
    if m.Member? && Fold(m.key, opts) != Fold(key, opts) { FindWeight(m.next, key, opts); }
  }

  /** `==` on doubles. */
  predicate SameDouble(x: Double, y: Double) {
    x != NotANumber && x == y
  }

  function Compared(a: Json, b: Json, opts: Settings): bool
    decreases Weight(a) + Weight(b), 0, a
  {
    match a
    case Invalid => false
    case Null => b.Null?
    case False => b.False?
    case True => b.True?
    case Number(_) => (b.Number? || b.NonFinite?) && SameDouble(DoubleOf(a, opts), DoubleOf(b, opts))
    case NonFinite(_) => (b.Number? || b.NonFinite?) && SameDouble(DoubleOf(a, opts), DoubleOf(b, opts))
    case String(text) => b.String? && text == b.text
    case Raw(text) => b.Raw? && text == b.text
    case Array(child) => b.Array? && ComparedItems(child, b.child, opts)
    case Object(members) => b.Object? && Included(members, b.members, opts) && Included(b.members, members, opts)
  }

  function ComparedItems(a: Elements, b: Elements, opts: Settings): bool
    decreases WeightItems(a) + WeightItems(b), 1, a
  {
    if a.NoElements? || b.NoElements? then a.NoElements? && b.NoElements?
    else Compared(a.value, b.value, opts) && ComparedItems(a.next, b.next, opts)
  }

  /** Every member of the one is found in the other, with an equal value. */
  function Included(m: Members, other: Members, opts: Settings): bool
    decreases WeightMembers(m) + WeightMembers(other), 1, m
  {
    m.Member? ==>
      (FindWeight(other, m.key, opts);
       var found := Find(other, m.key, opts);
       found.Some? && Compared(m.value, found.value, opts) && Included(m.next, other, opts))
  }

  // ---------------------------------------------------------------- the code

  /** case_insensitive_strcmp on two strings that are there. */
  method SameLowered(string1: CString, string2: CString) returns (same: bool)
    ensures same <==> Lowered(string1) == Lowered(string2)
  {
    var i := 0;
    while i < |string1| && i < |string2| && Lower(string1[i]) == Lower(string2[i])
      invariant i <= |string1| && i <= |string2|
      invariant forall j :: 0 <= j < i ==> Lowered(string1)[j] == Lowered(string2)[j]
    {
      i := i + 1;
    }
    same := i == |string1| == |string2|;
    assert i < |string1| && i < |string2| ==> Lowered(string1)[i] != Lowered(string2)[i];
  }

  method GetObjectItem(members: Members, key: CString, opts: Settings) returns (r: Option<Json>)
    ensures r == Find(members, key, opts)
  {
    var current := members;
    while current.Member?
      invariant Find(current, key, opts) == Find(members, key, opts)
      decreases current
    {
      var same := key == current.key;
      if !opts.caseSensitive { same := SameLowered(key, current.key); }
      if same { return Some(current.value); }
      current := current.next;
    }
    r := None;
  }

  /** `identical` says that both pointers are the same. */
  method Compare(a: Json, b: Json, identical: bool, opts: Settings) returns (same: bool)
    requires identical ==> a == b
    ensures same == if identical then !a.Invalid? else Compared(a, b, opts)
    decreases Weight(a) + Weight(b), 0, a
  {
    if a.Invalid? { return false; }
    if identical { return true; }
    match a
    case Null => same := b.Null?;
    case False => same := b.False?;
    case True => same := b.True?;
    case Number(_) => same := CompareNumbers(a, b, opts);
    case NonFinite(_) => same := CompareNumbers(a, b, opts);
    case String(text) => same := b.String? && text == b.text;
    case Raw(text) => same := b.Raw? && text == b.text;
    case Array(child) =>
      if !b.Array? { return false; }
      same := CompareItems(child, b.child, opts);
    case Object(members) =>
      if !b.Object? { return false; }
      same := Includes(members, b.members, opts);
      if same { same := Includes(b.members, members, opts); }
  }

  method CompareNumbers(a: Json, b: Json, opts: Settings) returns (same: bool)
    requires a.Number? || a.NonFinite?
    ensures same == Compared(a, b, opts)
  {
    if !b.Number? && !b.NonFinite? { return false; }
    same := SameDouble(DoubleOf(a, opts), DoubleOf(b, opts));
  }

  method CompareItems(a: Elements, b: Elements, opts: Settings) returns (same: bool)
    ensures same == ComparedItems(a, b, opts)
    decreases WeightItems(a) + WeightItems(b), 1, a
  {
    var x, y := a, b;
    while x.Element? && y.Element?
      invariant ComparedItems(x, y, opts) == ComparedItems(a, b, opts)
      invariant WeightItems(x) + WeightItems(y) <= WeightItems(a) + WeightItems(b)
      decreases x
    {
      same := Compare(x.value, y.value, false, opts);
      if !same { return; }
      x, y := x.next, y.next;
    }
    same := x.NoElements? && y.NoElements?;
  }

  method Includes(m: Members, other: Members, opts: Settings) returns (all: bool)
    ensures all == Included(m, other, opts)
    decreases WeightMembers(m) + WeightMembers(other), 1, m
  {
    var current := m;
    while current.Member?
      invariant Included(current, other, opts) == Included(m, other, opts)
      invariant WeightMembers(current) <= WeightMembers(m)
      decreases current
    {
      var found := GetObjectItem(other, current.key, opts);
      if found.None? { return false; }
      FindWeight(other, current.key, opts);
      all := Compare(current.value, found.value, false, opts);
      if !all { return; }
      current := current.next;
    }
    all := true;
  }

  // ---------------------------------------------------------------- equality of values

  lemma {:induction false} FindDenoted(m: Members, key: string, opts: Settings)
    ensures Fold(key, opts) in MapOf(m, opts) <==> Find(m, key, opts).Some?
    ensures Find(m, key, opts).Some? ==> Denoted(Find(m, key, opts).value, opts) == MapOf(m, opts)[Fold(key, opts)]
  {
    if m.Member? && Fold(m.key, opts) != Fold(key, opts) { FindDenoted(m.next, key, opts); }
  }

  lemma {:induction false} FoundGood(m: Members, key: string, all: map<string, Value>, opts: Settings)
    requires GoodMembers(m, all, opts)
    ensures Find(m, key, opts).Some? ==> Good(Find(m, key, opts).value, opts)
  {
    if m.Member? && Fold(m.key, opts) != Fold(key, opts) { FoundGood(m.next, key, all, opts); }
  }

  ghost predicate SubMap(a: map<string, Value>, b: map<string, Value>) {
    forall k :: k in a ==> k in b && a[k] == b[k]
  }

  lemma {:induction false} GoodIsSubMap(m: Members, all: map<string, Value>, opts: Settings)
    requires GoodMembers(m, all, opts)
    ensures SubMap(MapOf(m, opts), all)
  {
    if m.Member? { GoodIsSubMap(m.next, all, opts); }
  }

  /** The comparison says yes exactly to two good trees that stand for the same value. */
  lemma {:induction false} ComparesValues(a: Json, b: Json, opts: Settings)
    ensures Compared(a, b, opts) <==> Good(a, opts) && Good(b, opts) && Denoted(a, opts) == Denoted(b, opts)
    decreases Weight(a) + Weight(b), 0, a
  {
    if a.Array? && b.Array? {
      ComparesItems(a.child, b.child, opts);
    } else if a.Object? && b.Object? {
      ComparesMembers(a.members, b.members, opts);
    }
  }

  lemma {:induction false} ComparesItems(a: Elements, b: Elements, opts: Settings)
    ensures ComparedItems(a, b, opts) <==>
            GoodItems(a, opts) && GoodItems(b, opts) && DenotedItems(a, opts) == DenotedItems(b, opts)
    decreases WeightItems(a) + WeightItems(b), 1, a
  {
    if a.Element? && b.Element? {
      ComparesValues(a.value, b.value, opts);
      ComparesItems(a.next, b.next, opts);
      var x, y := DenotedItems(a, opts), DenotedItems(b, opts);
      assert x[0] == Denoted(a.value, opts) && y[0] == Denoted(b.value, opts);
      assert x[1..] == DenotedItems(a.next, opts) && y[1..] == DenotedItems(b.next, opts);
    }
  }

  /** The two loops together decide equality of the maps, and that no member contradicts the first with its key. */
  lemma {:induction false} ComparesMembers(m: Members, other: Members, opts: Settings)
    ensures Included(m, other, opts) && Included(other, m, opts) <==>
            && GoodMembers(m, MapOf(m, opts), opts) && GoodMembers(other, MapOf(other, opts), opts)
            && MapOf(m, opts) == MapOf(other, opts)
    decreases WeightMembers(m) + WeightMembers(other), 2, m
  {
    var x, y := MapOf(m, opts), MapOf(other, opts);
    IncludesValues(m, other, x, opts);
    IncludesValues(other, m, y, opts);
    IncludesValues(m, other, y, opts);
    IncludesValues(other, m, x, opts);
    if GoodMembers(m, y, opts) && GoodMembers(other, x, opts) {
      GoodIsSubMap(m, y, opts);
      GoodIsSubMap(other, x, opts);
      assert x.Keys == y.Keys;
      assert x == y;
    }
  }

  /** One loop: every member stands for what the other object has under its key. */
  lemma {:induction false} IncludesValues(m: Members, other: Members, all: map<string, Value>, opts: Settings)
    ensures Included(m, other, opts) ==> GoodMembers(m, MapOf(other, opts), opts)
    ensures GoodMembers(m, MapOf(other, opts), opts) && GoodMembers(other, all, opts) ==> Included(m, other, opts)
    decreases WeightMembers(m) + WeightMembers(other), 1, m
  {
    if m.Member? {
      var found := Find(other, m.key, opts);
      FindDenoted(other, m.key, opts);
      FindWeight(other, m.key, opts);
      if GoodMembers(other, all, opts) { FoundGood(other, m.key, all, opts); }
      if found.Some? { ComparesValues(m.value, found.value, opts); }
      IncludesValues(m.next, other, all, opts);
    }
  }

  /** A tree compares equal to a copy of itself exactly when it is good. */
  lemma EqualsItself(a: Json, opts: Settings)
    ensures Compared(a, a, opts) <==> Good(a, opts)
  {
    ComparesValues(a, a, opts);
  }

  /** The shortcut for one pointer gives the answer for a copy exactly when the tree is good, or no value at all. */
  lemma ShortcutAgrees(a: Json, opts: Settings)
    ensures !a.Invalid? == Compared(a, a, opts) <==> Good(a, opts) || a.Invalid?
  {
    ComparesValues(a, a, opts);
  }

  /** A key twice in an object: the tree equals its copy exactly when both members stand for one value. */
  lemma DuplicateKey(key: CString, v: Json, w: Json, opts: Settings)
    ensures var a := Object(Member(key, v, Member(key, w, NoMembers)));
            Compared(a, a, opts) <==> Good(v, opts) && Good(w, opts) && Denoted(v, opts) == Denoted(w, opts)
  {
    var m := Member(key, v, Member(key, w, NoMembers));
    ComparesValues(Object(m), Object(m), opts);
    assert MapOf(m, opts)[Fold(key, opts)] == Denoted(v, opts);
    assert GoodMembers(m.next, MapOf(m, opts), opts) <==> Denoted(w, opts) == Denoted(v, opts) && Good(w, opts);
  }
}
