/**
 * `findValuesByKey` (index.js): a depth-first walk over a JSON tree that
 * collects, as strings, the truthy values stored under one key name at any
 * depth. The bot uses it because the lookup service's reply layout is not
 * fixed; it finds ids wherever they sit.
 */
module JsonSearch {
  import opened Json

  /** What one walk from `v` appends to the accumulator, in visiting order. */
  function ValuesByKey(v: Value, key: string): seq<string>
    decreases v
  {
    match v
    case Arr(items) => ItemsValues(items, key)
    case Obj(members) => MembersValues(members, key)
    case _ => []
  }

  /** The walks over the elements of an array, one after another. */
  function ItemsValues(items: seq<Value>, key: string): seq<string>
    decreases items
  {
    if items == [] then []
    else ItemsValues(items[..|items| - 1], key) + ValuesByKey(items[|items| - 1], key)
  }

  /** The walks over the members of an object: a member named `key` with a
      truthy value contributes that value itself, then the walk descends
      into the member's value whatever its name. */
  function MembersValues(members: seq<Member>, key: string): seq<string>
    decreases members
  {
    if members == [] then []
    else MembersValues(members[..|members| - 1], key) + MemberValues(members[|members| - 1], key)
  }

  /** One member: its own value when it is named `key`, then its contents. */
  function MemberValues(m: Member, key: string): seq<string>
    decreases m
  {
    MemberOwn(m, key) + ValuesByKey(m.value, key)
  }

  function MemberOwn(m: Member, key: string): seq<string> {
    if m.key == key && JsTruthy(m.value) then [JsString(m.value)] else []
  }

  /**
   * `findValuesByKey(obj, key, list)`: the accumulator threaded through
   * the recursion; what the walk appends comes after what `list` held.
   * A falsy `obj` and any scalar leave the list as it was.
   */
  method FindValuesByKey(obj: Value, key: string, list: seq<string>) returns (r: seq<string>)
    ensures r == list + ValuesByKey(obj, key)
    decreases obj, 1
  {
    r := list;
    if !JsTruthy(obj) {
      return;
    }
    match obj {
      case Arr(items) =>
        r := WalkItems(items, key, list);
      case Obj(members) =>
        r := WalkMembers(members, key, list);
      case _ =>
    }
  }

  /** `for (let i of obj) findValuesByKey(i, key, list)`. */
  method WalkItems(items: seq<Value>, key: string, list: seq<string>) returns (r: seq<string>)
    ensures r == list + ItemsValues(items, key)
    decreases items, 0
  {
    r := list;
    var i := 0;
    while i < |items|
      invariant 0 <= i <= |items|
      invariant r == list + ItemsValues(items[..i], key)
    {
      r := FindValuesByKey(items[i], key, r);
      ItemsValuesSnoc(items, i, key);
      i := i + 1;
    }
    assert items[..i] == items;
  }

  /** `for (let k in obj)`: push the member's own value when its name is
      `key` and it is truthy, then walk into it. */
  method WalkMembers(members: seq<Member>, key: string, list: seq<string>) returns (r: seq<string>)
    ensures r == list + MembersValues(members, key)
    decreases members, 0
  {
    r := list;
    var i := 0;
    while i < |members|
      invariant 0 <= i <= |members|
      invariant r == list + MembersValues(members[..i], key)
    {
      var m := members[i];
      ghost var done, own, inner := MembersValues(members[..i], key), MemberOwn(m, key), ValuesByKey(m.value, key);
      if m.key == key && JsTruthy(m.value) {
        r := r + [JsString(m.value)];
      }
      assert r == (list + done) + own;
      r := FindValuesByKey(m.value, key, r);
      assert ((list + done) + own) + inner == list + (done + (own + inner));
      MembersValuesSnoc(members, i, key);
      i := i + 1;
    }
    assert members[..i] == members;
  }

  /** One more element of an array walked. */
  lemma ItemsValuesSnoc(items: seq<Value>, i: nat, key: string)
    requires i < |items|
    ensures ItemsValues(items[..i + 1], key) == ItemsValues(items[..i], key) + ValuesByKey(items[i], key)
  {
    assert items[..i + 1][..i] == items[..i];
  }

  /** One more member of an object walked. */
  lemma MembersValuesSnoc(members: seq<Member>, i: nat, key: string)
    requires i < |members|
    ensures MembersValues(members[..i + 1], key)
         == MembersValues(members[..i], key) + MemberValues(members[i], key)
  {
    assert members[..i + 1][..i] == members[..i];
  }

  // ---------------------------------------------------------------------
  // What the walk finds: exactly the truthy values bound to `key`
  // ---------------------------------------------------------------------

  /** Some object nested in `v` (or `v` itself) has a member `key: x`. */
  ghost predicate Binds(v: Value, key: string, x: Value)
    decreases v
  {
    match v
    case Arr(items) => exists i :: 0 <= i < |items| && Binds(items[i], key, x)
    case Obj(members) =>
      exists i :: 0 <= i < |members| && (members[i] == Member(key, x) || Binds(members[i].value, key, x))
    case _ => false
  }

  /** `s` is the string of a truthy value bound to `key` inside `v`. */
  ghost predicate Yields(v: Value, key: string, s: string) {
    exists x :: Binds(v, key, x) && JsTruthy(x) && JsString(x) == s
  }

  ghost predicate MemberYields(m: Member, key: string, s: string) {
    s in MemberOwn(m, key) || Yields(m.value, key, s)
  }

  lemma {:induction false} ValuesByKeyIff(v: Value, key: string, s: string)
    ensures s in ValuesByKey(v, key) <==> Yields(v, key, s)
    decreases v, 2
  {
    match v
    case Arr(items) => ArrValuesIff(items, key, s);
    case Obj(members) => ObjValuesIff(members, key, s);
    case _ =>
  }

  lemma {:induction false} ArrValuesIff(items: seq<Value>, key: string, s: string)
    ensures s in ValuesByKey(Arr(items), key) <==> Yields(Arr(items), key, s)
    decreases items, 1
  {
    var v := Arr(items);
    ItemsValuesIff(items, key, s);
    if s in ValuesByKey(v, key) {
      var i :| 0 <= i < |items| && Yields(items[i], key, s);
      var x :| Binds(items[i], key, x) && JsTruthy(x) && JsString(x) == s;
      assert Binds(v, key, x);
    }
    if Yields(v, key, s) {
      var x :| Binds(v, key, x) && JsTruthy(x) && JsString(x) == s;
      var i :| 0 <= i < |items| && Binds(items[i], key, x);
      assert Yields(items[i], key, s);
    }
  }

  lemma {:induction false} ObjValuesIff(members: seq<Member>, key: string, s: string)
    ensures s in ValuesByKey(Obj(members), key) <==> Yields(Obj(members), key, s)
    decreases members, 1
  {
    var v := Obj(members);
    MembersValuesIff(members, key, s);
    if s in ValuesByKey(v, key) {
      var i :| 0 <= i < |members| && MemberYields(members[i], key, s);
      if s in MemberOwn(members[i], key) {
        assert members[i] == Member(key, members[i].value);
        assert Binds(v, key, members[i].value);
      } else {
        var x :| Binds(members[i].value, key, x) && JsTruthy(x) && JsString(x) == s;
        assert Binds(v, key, x);
      }
    }
    if Yields(v, key, s) {
      var x :| Binds(v, key, x) && JsTruthy(x) && JsString(x) == s;
      var i :| 0 <= i < |members| && (members[i] == Member(key, x) || Binds(members[i].value, key, x));
      assert MemberYields(members[i], key, s);
    }
  }

  lemma {:induction false} ItemsValuesIff(items: seq<Value>, key: string, s: string)
    ensures s in ItemsValues(items, key) <==> exists i :: 0 <= i < |items| && Yields(items[i], key, s)
    decreases items, 0
  {
    if items != [] {
      var n := |items| - 1;
      ItemsValuesIff(items[..n], key, s);
      ValuesByKeyIff(items[n], key, s);
      assert items == items[..n] + [items[n]];
      ItemsValuesStep(items[..n], items[n], key, s);
    }
  }

  /** One step of ItemsValuesIff: a last element joins the others. */
  lemma ItemsValuesStep(init: seq<Value>, x: Value, key: string, s: string)
    requires s in ItemsValues(init, key) <==>
             exists i :: 0 <= i < |init| && Yields(init[i], key, s)
    requires s in ValuesByKey(x, key) <==> Yields(x, key, s)
    ensures s in ItemsValues(init + [x], key) <==>
            exists i :: 0 <= i < |init| + 1 && Yields((init + [x])[i], key, s)
  {
    var items := init + [x];
    assert items[..|init|] == init;
    if s in ItemsValues(init, key) {
      var i :| 0 <= i < |init| && Yields(init[i], key, s);
      assert items[i] == init[i];
    }
    if exists i :: 0 <= i < |items| && Yields(items[i], key, s) {
      var i :| 0 <= i < |items| && Yields(items[i], key, s);
      if i < |init| {
        assert items[i] == init[i];
      }
    }
  }

  lemma {:induction false} MembersValuesIff(members: seq<Member>, key: string, s: string)
    ensures s in MembersValues(members, key) <==>
            exists i :: 0 <= i < |members| && MemberYields(members[i], key, s)
    decreases members, 0
  {
    if members != [] {
      var n := |members| - 1;
      MembersValuesIff(members[..n], key, s);
      ValuesByKeyIff(members[n].value, key, s);
      assert members == members[..n] + [members[n]];
      MembersValuesStep(members[..n], members[n], key, s);
    }
  }

  /** One step of MembersValuesIff: a last member joins the others. */
  lemma MembersValuesStep(init: seq<Member>, m: Member, key: string, s: string)
    requires s in MembersValues(init, key) <==>
             exists i :: 0 <= i < |init| && MemberYields(init[i], key, s)
    requires s in ValuesByKey(m.value, key) <==> Yields(m.value, key, s)
    ensures s in MembersValues(init + [m], key) <==>
            exists i :: 0 <= i < |init| + 1 && MemberYields((init + [m])[i], key, s)
  {
    var members := init + [m];
    assert members[..|init|] == init;
    if s in MembersValues(init, key) {
      var i :| 0 <= i < |init| && MemberYields(init[i], key, s);
      assert members[i] == init[i];
    }
    if exists i :: 0 <= i < |members| && MemberYields(members[i], key, s) {
      var i :| 0 <= i < |members| && MemberYields(members[i], key, s);
      if i < |init| {
        assert members[i] == init[i];
      }
    }
  }

  // ---------------------------------------------------------------------
  // In what order: siblings left to right, a member before its contents
  // ---------------------------------------------------------------------

  lemma DropLastOfConcat<T>(xs: seq<T>, ys: seq<T>)
    requires ys != []
    ensures (xs + ys)[..|xs + ys| - 1] == xs + ys[..|ys| - 1]
    ensures (xs + ys)[|xs + ys| - 1] == ys[|ys| - 1]
  {
  }

  /** The walk over sibling array elements visits them left to right. */
  lemma {:induction false} ItemsValuesAppend(xs: seq<Value>, ys: seq<Value>, key: string)
    ensures ItemsValues(xs + ys, key) == ItemsValues(xs, key) + ItemsValues(ys, key)
    decreases |ys|
  {
    if ys == [] {
      assert xs + ys == xs;
    } else {
      var n := |ys| - 1;
      DropLastOfConcat(xs, ys);
      ItemsValuesAppend(xs, ys[..n], key);
    }
  }

  /** The walk over sibling object members visits them left to right. */
  lemma {:induction false} MembersValuesAppend(xs: seq<Member>, ys: seq<Member>, key: string)
    ensures MembersValues(xs + ys, key) == MembersValues(xs, key) + MembersValues(ys, key)
    decreases |ys|
  {
    if ys == [] {
      assert xs + ys == xs;
    } else {
      var n := |ys| - 1;
      DropLastOfConcat(xs, ys);
      MembersValuesAppend(xs, ys[..n], key);
    }
  }

  /** Depth first: an object's first member contributes its own value, then
      everything beneath it, before any later member is visited. */
  lemma FirstMemberFirst(m: Member, rest: seq<Member>, key: string)
    ensures ValuesByKey(Obj([m] + rest), key)
         == MemberOwn(m, key) + ValuesByKey(m.value, key) + ValuesByKey(Obj(rest), key)
  {
    MembersValuesAppend([m], rest, key);
    assert [m][..0] == [];
  }

  /** Depth first: everything beneath an array's first element comes before
      anything beneath the later elements. */
  lemma FirstItemFirst(x: Value, rest: seq<Value>, key: string)
    ensures ValuesByKey(Arr([x] + rest), key) == ValuesByKey(x, key) + ValuesByKey(Arr(rest), key)
  {
    ItemsValuesAppend([x], rest, key);
    assert [x][..0] == [];
  }
}
