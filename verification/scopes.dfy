/**
 * The field-scope resolver behind `getField`: a stack of alias maps, one per
 * open container, with the innermost scope last. A field path is split on
 * `/`; each leading `..` moves one scope outward; the field found there is
 * either already bound (its alias is reused) or receives a fresh alias made
 * of the field name and a collision count.
 */
module Scopes {
  import opened Js

  /** One container level: field name to generated alias. */
  type Scope = map<string, string>

  /** `scope[field]` is truthy: present and not the empty string. */
  predicate Binds(scope: Scope, field: string) {
    field in scope && scope[field] != ""
  }

  /** Field names that always receive a numeric suffix. */
  const Reserved: set<string> := {"value", "enum", "default", "size", "offset"}

  /** How many of the scopes below `level` bind `field`. */
  function CountBinding(stack: seq<Scope>, field: string, level: nat): nat
    requires level <= |stack|
  {
    if level == 0 then 0
    else CountBinding(stack, field, level - 1) + (if Binds(stack[level - 1], field) then 1 else 0)
  }

  /** `count || ''`: no suffix for zero, the decimal count otherwise. */
  function Suffix(count: nat): string {
    if count == 0 then "" else NatToString(count)
  }

  /** The collision count of a fresh alias for `field` at `level`. */
  function Collisions(stack: seq<Scope>, level: nat, field: string): nat
    requires level <= |stack|
  {
    (if field in Reserved then 1 else 0) + CountBinding(stack, field, level)
  }

  function FreshAlias(stack: seq<Scope>, level: nat, field: string): string
    requires level <= |stack|
  {
    field + Suffix(Collisions(stack, level, field))
  }

  /** The remaining path segments as member accesses: `.a.b`, or nothing. */
  function Members(rest: seq<string>): string {
    if rest == [] then "" else "." + Join(rest, ".")
  }

  /** What one resolution does: reuse an alias, bind a fresh one, or throw. */
  datatype Resolution =
    | Existing(alias: string)
    | Fresh(level: nat, field: string, alias: string)
    | Failed(error: Error)

  /** The loop of `getField` over the remaining `path`, looking at scope `i`. */
  function Resolve(stack: seq<Scope>, path: seq<string>, i: int): (r: Resolution)
    ensures r.Fresh? ==> r.level < |stack| && !Binds(stack[r.level], r.field)
    ensures r.Fresh? ==> r.alias == FreshAlias(stack, r.level, r.field)
    decreases |path|
  {
    if path == [] then Failed(Error("Unknown field ", None))
    else if path[0] == ".." then Resolve(stack, path[1..], i - 1)
    else if i < 0 || i >= |stack| then
      Failed(Error("Cannot read properties of undefined (reading '" + path[0] + "')", None))
    else if Binds(stack[i], path[0]) then Existing(stack[i][path[0]] + Members(path[1..]))
    else if |path| > 1 then Failed(Error("Cannot access properties of undefined field", None))
    else Fresh(i, path[0], FreshAlias(stack, i, path[0]))
  }

  /** `Resolve` peels one segment off the front of a path. */
  lemma ResolveCons(stack: seq<Scope>, field: string, rest: seq<string>, i: int)
    ensures field == ".." ==> Resolve(stack, [field] + rest, i) == Resolve(stack, rest, i - 1)
    ensures field != ".." && (i < 0 || i >= |stack|) ==>
      Resolve(stack, [field] + rest, i) == Failed(Error("Cannot read properties of undefined (reading '" + field + "')", None))
  {
    assert ([field] + rest)[0] == field && ([field] + rest)[1..] == rest;
  }

  /** `getField(name)`: its result and the scope stack afterwards. */
  function GetFieldSpec(stack: seq<Scope>, name: string): (Result<string>, seq<Scope>) {
    Apply(stack, Resolve(stack, Split(name, '/'), |stack| - 1))
  }

  /** What a resolution returns, and the scopes it leaves: a fresh alias is
      bound in its scope. */
  function Apply(stack: seq<Scope>, res: Resolution): (Result<string>, seq<Scope>) {
    match res
    case Existing(a) => (Ok(a), stack)
    case Fresh(l, f, a) => (Ok(a), if l < |stack| then stack[l := stack[l][f := a]] else stack)
    case Failed(e) => (Err(e), stack)
  }

  // ---------------------------------------------------------------------
  // properties

  /** The number of leading `..` segments of a path. */
  function LeadingUps(path: seq<string>): (u: nat)
    ensures u <= |path|
  {
    if path != [] && path[0] == ".." then 1 + LeadingUps(path[1..]) else 0
  }

  /** The scope a path addresses: one level outward per leading `..`. */
  function Target(stack: seq<Scope>, path: seq<string>): int {
    |stack| - 1 - LeadingUps(path)
  }

  /** The leading `..` segments only move the scope index. */
  lemma {:induction false} ResolveSkipsUps(stack: seq<Scope>, path: seq<string>, i: int)
    ensures LeadingUps(path) == |path| ==> Resolve(stack, path, i) == Failed(Error("Unknown field ", None))
    ensures LeadingUps(path) < |path| ==>
      path[LeadingUps(path)] != ".." &&
      Resolve(stack, path, i) == Resolve(stack, path[LeadingUps(path)..], i - LeadingUps(path))
    decreases |path|
  {
    if path != [] && path[0] == ".." {
      ResolveSkipsUps(stack, path[1..], i - 1);
      assert path[1..][LeadingUps(path[1..])..] == path[LeadingUps(path)..];
    }
  }

  /** `getField` case by case, in terms of the addressed scope `t` and the
      first segment after the `..` prefix. */
  lemma GetFieldCases(stack: seq<Scope>, name: string)
    ensures var path := Split(name, '/');
      var u := LeadingUps(path);
      var t := Target(stack, path);
      var (r, after) := GetFieldSpec(stack, name);
      (u == |path| ==> r == Throw("Unknown field ") && after == stack) &&
      (u < |path| && !(0 <= t < |stack|) ==> r.Err? && after == stack) &&
      (u < |path| && 0 <= t < |stack| && Binds(stack[t], path[u]) ==>
        r == Ok(stack[t][path[u]] + Members(path[u + 1..])) && after == stack) &&
      (u + 1 < |path| && 0 <= t < |stack| && !Binds(stack[t], path[u]) ==>
        r == Throw("Cannot access properties of undefined field") && after == stack) &&
      (u + 1 == |path| && 0 <= t < |stack| && !Binds(stack[t], path[u]) ==>
        r == Ok(FreshAlias(stack, t, path[u])) && after == stack[t := stack[t][path[u] := r.value]])
  {
    var path := Split(name, '/');
    ResolveSkipsUps(stack, path, |stack| - 1);
    var u := LeadingUps(path);
    var t := Target(stack, path);
    if u < |path| {
      var p := path[u..];
      assert p[0] == path[u] && p[1..] == path[u + 1..];
      var res := Resolve(stack, path, |stack| - 1);
      assert res == Resolve(stack, p, t);
      if !(0 <= t < |stack|) {
        assert res.Failed?;
      } else if Binds(stack[t], path[u]) {
        assert res == Existing(stack[t][path[u]] + Members(path[u + 1..]));
      } else if u + 1 < |path| {
        assert res == Failed(Error("Cannot access properties of undefined field", None));
      } else {
        assert res == Fresh(t, path[u], FreshAlias(stack, t, path[u]));
      }
    }
  }

  /** Scopes below `level` alone decide the collision count. */
  lemma {:induction false} CountBindingBelow(s: seq<Scope>, s': seq<Scope>, field: string, level: nat)
    requires level <= |s| && level <= |s'|
    requires forall j :: 0 <= j < level ==> s[j] == s'[j]
    ensures CountBinding(s, field, level) == CountBinding(s', field, level)
  {
    if level > 0 {
      CountBindingBelow(s, s', field, level - 1);
    }
  }

  /** The scopes below `level` that bind `field`. */
  function Binders(stack: seq<Scope>, field: string, level: nat): set<nat>
    requires level <= |stack|
  {
    set j: nat | j < level && Binds(stack[j], field)
  }

  /** The collision count is the number of enclosing scopes that bind the field. */
  lemma {:induction false} CountBindingCounts(stack: seq<Scope>, field: string, level: nat)
    requires level <= |stack|
    ensures CountBinding(stack, field, level) == |Binders(stack, field, level)|
  {
    if level > 0 {
      CountBindingCounts(stack, field, level - 1);
      BindersStep(stack, field, level - 1);
    }
  }

  /** One more scope adds its index to the binders exactly when it binds the field. */
  lemma BindersStep(stack: seq<Scope>, field: string, j: nat)
    requires j < |stack|
    ensures j !in Binders(stack, field, j)
    ensures Binders(stack, field, j + 1) ==
      Binders(stack, field, j) + (if Binds(stack[j], field) then {j} else {})
  {
  }

  /** After a fresh binding, walking the same path again finds it (or, for an
      empty alias, which is falsy, binds the same alias again). */
  lemma {:induction false} ResolveAfterFresh(stack: seq<Scope>, path: seq<string>, i: int, l: nat, f: string, a: string)
    requires Resolve(stack, path, i) == Fresh(l, f, a)
    ensures l < |stack|
    ensures a != "" ==> Resolve(stack[l := stack[l][f := a]], path, i) == Existing(a)
    ensures a == "" ==> Resolve(stack[l := stack[l][f := a]], path, i) == Fresh(l, f, a)
    decreases |path|
  {
    var after := stack[l := stack[l][f := a]];
    if path[0] == ".." {
      ResolveAfterFresh(stack, path[1..], i - 1, l, f, a);
    } else {
      assert l == i && f == path[0] && |path| == 1;
      assert path[1..] == [];
      if a == "" {
        CountBindingBelow(stack, after, f, l);
      } else {
        assert a + "" == a;
      }
    }
  }

  /** Resolving the same name twice gives the same alias, and the second
      call leaves the scopes as the first call left them. */
  lemma GetFieldIdempotent(stack: seq<Scope>, name: string)
    ensures var (r, after) := GetFieldSpec(stack, name);
      GetFieldSpec(after, name) == (r, after)
  {
    var path := Split(name, '/');
    var res := Resolve(stack, path, |stack| - 1);
    if res.Fresh? {
      var Fresh(l, f, a) := res;
      ResolveAfterFresh(stack, path, |stack| - 1, l, f, a);
      var after := stack[l := stack[l][f := a]];
      assert GetFieldSpec(stack, name) == (Ok(a), after);
      assert |after| == |stack|;
      assert GetFieldSpec(after, name) == Apply(after, Resolve(after, path, |stack| - 1));
      if a == "" {
        assert after[l := after[l][f := a]] == after by {
          assert after[l][f := a] == after[l];
        }
      }
    }
  }

  /** `getField` never changes the depth of the stack, never changes a scope
      other than the addressed one, and never rebinds a field that was bound:
      it can only add one binding to the addressed scope. */
  lemma GetFieldOnlyAdds(stack: seq<Scope>, name: string)
    ensures var after := GetFieldSpec(stack, name).1;
      var t := Target(stack, Split(name, '/'));
      |after| == |stack| &&
      (forall k :: 0 <= k < |stack| && k != t ==> after[k] == stack[k]) &&
      (forall k, f :: 0 <= k < |stack| && f in stack[k] && stack[k][f] != "" ==>
        f in after[k] && after[k][f] == stack[k][f]) &&
      (0 <= t < |stack| ==> stack[t].Keys <= after[t].Keys && |after[t].Keys - stack[t].Keys| <= 1)
  {
    var path := Split(name, '/');
    var u := LeadingUps(path);
    var t := Target(stack, path);
    GetFieldCases(stack, name);
    var after := GetFieldSpec(stack, name).1;
    if u + 1 == |path| && 0 <= t < |stack| && !Binds(stack[t], path[u]) {
      assert after[t].Keys == stack[t].Keys + {path[u]};
      assert after[t].Keys - stack[t].Keys <= {path[u]};
    } else {
      assert after == stack;
    }
  }

  /** `after` keeps every scope of `before` and every binding in it: the
      aliases handed out so far stay valid. */
  ghost predicate Extends(before: seq<Scope>, after: seq<Scope>) {
    |before| <= |after| &&
    forall k, f :: 0 <= k < |before| && Binds(before[k], f) ==> f in after[k] && after[k][f] == before[k][f]
  }

  lemma ExtendsTrans(a: seq<Scope>, b: seq<Scope>, c: seq<Scope>)
    requires Extends(a, b) && Extends(b, c)
    ensures Extends(a, c)
  {
  }

  /** `getField` keeps the depth and every alias already handed out. */
  lemma GetFieldExtends(stack: seq<Scope>, name: string)
    ensures |GetFieldSpec(stack, name).1| == |stack|
    ensures Extends(stack, GetFieldSpec(stack, name).1)
  {
    GetFieldOnlyAdds(stack, name);
  }
}
