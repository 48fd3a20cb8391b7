/**
 The modules of a store (internal/wasm/store_module_list.go): a doubly linked list, newest first,
 and a map from names to the named modules on it.
 */
module ModuleList {

  /** nameToModuleShrinkThreshold */
  const SHRINK_THRESHOLD: nat := 100

  datatype Error = NoError | AlreadyClosed | AlreadyInstantiated

  function Max(a: nat, b: nat): nat {
    if a < b then b else a
  }

  class Module {
    const name: string
    var prev: Module?
    var next: Module?

    constructor (name: string)
      ensures this.name == name && Detached(this)
    {
      this.name, prev, next := name, null, null;
    }
  }

  ghost predicate Detached(m: Module)
    reads m
  {
    m.prev == null && m.next == null
  }

  ghost predicate Distinct(l: seq<Module>) {
    forall i, j :: 0 <= i < j < |l| ==> l[i] != l[j]
  }

  /** Element `i` of a list, or null beyond its ends. */
  function Nth(l: seq<Module>, i: int): Module? {
    if 0 <= i < |l| then l[i] else null
  }

  ghost predicate LinkedAt(l: seq<Module>, i: nat)
    requires i < |l|
    reads l[i]
  {
    l[i].prev == Nth(l, i - 1) && l[i].next == Nth(l, i + 1)
  }

  /** The links of a doubly linked list. */
  ghost predicate Linked(l: seq<Module>)
    reads l
  {
    forall i :: 0 <= i < |l| ==> LinkedAt(l, i)
  }

  /** `names` is exactly the named modules of the list under their names. */
  ghost predicate Named(l: seq<Module>, names: map<string, Module>) {
    && (forall m :: m in l && m.name != "" ==> m.name in names && names[m.name] == m)
    && (forall k :: k in names ==> k != "" && names[k].name == k && names[k] in l)
  }

  /** The list without a module. */
  function Without(l: seq<Module>, m: Module): seq<Module> {
    if l == [] then [] else if l[0] == m then l[1..] else [l[0]] + Without(l[1..], m)
  }

  lemma {:induction false} WithoutAbsent(l: seq<Module>, m: Module)
    requires m !in l
    ensures Without(l, m) == l
  {
    if l != [] {
      WithoutAbsent(l[1..], m);
    }
  }

  lemma {:induction false} WithoutAt(l: seq<Module>, p: nat)
    requires p < |l| && Distinct(l)
    ensures Without(l, l[p]) == l[..p] + l[p + 1..]
  {
    if p > 0 {
      assert l[0] != l[p];
      WithoutAt(l[1..], p - 1);
      assert l[1..][..p - 1] == l[1..p];
    }
  }

  /** Deleting a module again changes nothing. */
  lemma {:induction false} DeletedTwice(l: seq<Module>, m: Module)
    requires Distinct(l)
    ensures m !in Without(l, m) && Without(Without(l, m), m) == Without(l, m)
  {
    WithoutHas(l, m, m);
    WithoutAbsent(Without(l, m), m);
  }

  /** The neighbours of element `p` point past it, and the others to their neighbours. */
  ghost predicate BypassedAt(l: seq<Module>, p: nat, i: nat)
    requires p < |l| && i < |l|
    reads l[i]
  {
    && l[i].prev == Nth(l, if i == p + 1 then p - 1 else i - 1)
    && l[i].next == Nth(l, if i == p - 1 then p + 1 else i + 1)
  }

  ghost predicate Bypassed(l: seq<Module>, p: nat)
    requires p < |l|
    reads l
  {
    forall i :: 0 <= i < |l| && i != p ==> BypassedAt(l, p, i)
  }

  lemma {:induction false} Spliced(l: seq<Module>, p: nat)
    requires p < |l| && Distinct(l) && Bypassed(l, p)
    ensures Linked(l[..p] + l[p + 1..]) && Distinct(l[..p] + l[p + 1..])
  {
    var l' := l[..p] + l[p + 1..];
    forall i | 0 <= i < |l'| ensures LinkedAt(l', i) {
      assert BypassedAt(l, p, if i < p then i else i + 1);
    }
  }

  class Store {
    var moduleList: Module?
    var nameToModule: map<string, Module>
    var nameToModuleCap: nat
    /** nameToModule is nil */
    var closed: bool
    ghost var list: seq<Module>

    ghost predicate Valid()
      reads this, list
    {
      && ListValid()
      && Named(list, nameToModule)
      && (closed || |nameToModule| <= nameToModuleCap)
    }

    constructor ()
      ensures Valid() && list == [] && !closed && nameToModule == map[]
    {
      moduleList, nameToModule, nameToModuleCap, closed, list := null, map[], SHRINK_THRESHOLD, false, [];
    }

    /** The part of Valid that is about the list. */
    ghost predicate ListValid()
      reads `moduleList, `list, `closed, list
    {
      moduleList == Nth(list, 0) && Distinct(list) && Linked(list) && (closed ==> list == [])
    }

    /** Puts a module at the head of the list. */
    method Link(m: Module)
      requires ListValid() && !closed && m !in list && Detached(m)
      modifies `moduleList, `list, m, moduleList
      ensures ListValid() && list == [m] + old(list)
    {
      m.next := moduleList;
      if m.next != null {
        m.next.prev := m;
      }
      moduleList := m;
      list := [m] + list;
      forall i | 0 <= i < |list| ensures LinkedAt(list, i) {
        assert i > 0 ==> old(LinkedAt(list, i - 1));
      }
    }

    /** registerModule, for a module that is in no list. */
    method RegisterModule(m: Module) returns (err: Error)
      requires Valid() && m !in list && Detached(m)
      modifies this, m, moduleList
      ensures Valid()
      ensures err == (if old(closed) then AlreadyClosed
                      else if m.name != "" && m.name in old(nameToModule) then AlreadyInstantiated
                      else NoError)
      ensures err != NoError ==> unchanged(this) && Detached(m)
      ensures err == NoError ==> list == [m] + old(list) && !closed
      ensures err == NoError ==>
                nameToModule == if m.name != "" then old(nameToModule)[m.name := m] else old(nameToModule)
      ensures err == NoError ==>
                nameToModuleCap == if m.name != "" then Max(old(nameToModuleCap), |nameToModule|)
                                   else old(nameToModuleCap)
    {
      if closed {
        return AlreadyClosed;
      }
      if m.name != "" {
        if m.name in nameToModule {
          return AlreadyInstantiated;
        }
        nameToModule := nameToModule[m.name := m];
        if |nameToModule| > nameToModuleCap {
          nameToModuleCap := |nameToModule|;
        }
      }
      NamedWith(list, old(nameToModule), m);
      Link(m);
      return NoError;
    }

    /** Lets the neighbours of a module point past it. `p` is its place on the list, or -1. */
    method Bypass(m: Module, ghost p: int)
      requires ListValid() && (if p < 0 then m !in list && (closed || Detached(m)) else p < |list| && list[p] == m)
      modifies `moduleList, m, m.prev, m.next
      ensures Detached(m) && (p < 0 ==> Linked(list)) && (p >= 0 ==> Bypassed(list, p))
      ensures moduleList == if p == 0 then Nth(list, 1) else old(moduleList)
    {
      assert p >= 0 ==> LinkedAt(list, p);
      if m.prev != null {
        m.prev.next := m.next;
      }
      if m.next != null {
        m.next.prev := m.prev;
      }
      if moduleList == m {
        moduleList := m.next;
      }
      m.prev := null;
      m.next := null;
      forall i | 0 <= i < |list| && i != p
        ensures if p < 0 then LinkedAt(list, i) else BypassedAt(list, p, i)
      {
        assert old(LinkedAt(list, i));
      }
    }

    /** Takes a module off the list, if it is on it. */
    method Unlink(m: Module)
      requires ListValid() && (closed || m in list || Detached(m))
      modifies `moduleList, `list, m, m.prev, m.next
      ensures ListValid() && Detached(m) && list == Without(old(list), m)
    {
      ghost var p := -1;
      if m in list {
        p :| 0 <= p < |list| && list[p] == m;
      }
      Bypass(m, p);
      if 0 <= p {
        Spliced(list, p);
        WithoutAt(list, p);
      } else {
        WithoutAbsent(list, m);
      }
      list := Without(list, m);
    }

    /** deleteModule, for a module that is in the list or in none. When the store has been closed,
        the module may still be linked to others that were on the list. */
    method DeleteModule(m: Module)
      requires Valid() && (closed || m in list || Detached(m))
      modifies this, m, m.prev, m.next
      ensures Valid() && Detached(m)
      ensures list == Without(old(list), m) && closed == old(closed)
      ensures nameToModule == if m in old(list) then old(nameToModule) - {m.name} else old(nameToModule)
      ensures m.name != "" ==> nameToModuleCap < 2 * Max(|nameToModule|, SHRINK_THRESHOLD)
      ensures m.name == "" ==> nameToModuleCap == old(nameToModuleCap)
    {
      ghost var l, names := NamesLeft(list, nameToModule, m);
      Remove(m);
      assert list == l && nameToModule == names;
    }

    /** Takes a module off the list and its own entry out of the map. */
    method Remove(m: Module)
      requires ListValid() && (closed || m in list || Detached(m)) && (closed || |nameToModule| <= nameToModuleCap)
      modifies this, m, m.prev, m.next
      ensures ListValid() && Detached(m) && list == Without(old(list), m) && closed == old(closed)
      ensures nameToModule == if m.name != "" then Forgotten(old(nameToModule), m) else old(nameToModule)
      ensures closed || |nameToModule| <= nameToModuleCap
      ensures m.name != "" ==> nameToModuleCap < 2 * Max(|nameToModule|, SHRINK_THRESHOLD)
      ensures m.name == "" ==> nameToModuleCap == old(nameToModuleCap)
    {
      Unlink(m);
      ForgetName(m);
    }

    /** Deletes the module's own entry, and shrinks a map that has become too large. */
    method ForgetName(m: Module)
      requires closed || |nameToModule| <= nameToModuleCap
      modifies `nameToModule, `nameToModuleCap
      ensures nameToModule == if m.name != "" then Forgotten(old(nameToModule), m) else old(nameToModule)
      ensures closed || |nameToModule| <= nameToModuleCap
      ensures m.name != "" ==> nameToModuleCap < 2 * Max(|nameToModule|, SHRINK_THRESHOLD)
      ensures m.name == "" ==> nameToModuleCap == old(nameToModuleCap)
    {
      if m.name != "" {
        if m.name in nameToModule && nameToModule[m.name] == m {
          nameToModule := nameToModule - {m.name};
        }
        var newCap := |nameToModule|;
        if newCap < SHRINK_THRESHOLD {
          newCap := SHRINK_THRESHOLD;
        }
        if newCap * 2 <= nameToModuleCap {
          nameToModule := Copied(nameToModule);
          nameToModuleCap := newCap;
        }
      }
    }

    /** module: the module of a name that is on the list. */
    method Module(name: string) returns (m: Module?)
      requires Valid()
      ensures m != null ==> m in list && m.name == name
      ensures m == null <==> name == "" || forall x :: x in list ==> x.name != name
    {
      if name !in nameToModule {
        return null;
      }
      return nameToModule[name];
    }

    /** What CloseWithExitCode does under the lock: the modules to close, newest first. */
    method Close() returns (modules: seq<Module>)
      requires Valid()
      modifies this
      ensures Valid() && closed && modules == old(list) && nameToModule == map[]
    {
      modules := [];
      var m := moduleList;
      while m != null
        invariant |modules| <= |list| && modules == list[..|modules|] && m == Nth(list, |modules|)
        decreases |list| - |modules|
      {
        assert LinkedAt(list, |modules|);
        modules := modules + [m];
        m := m.next;
      }
      moduleList, nameToModule, nameToModuleCap, closed, list := null, map[], 0, true, [];
    }
  }

  /** The loop that moves the names to a smaller map. */
  method Copied(names: map<string, Module>) returns (copy: map<string, Module>)
    ensures copy == names
  {
    copy := map[];
    var left := names.Keys;
    while left != {}
      invariant left <= names.Keys && copy == map k | k in names && k !in left :: names[k]
      decreases left
    {
      var k :| k in left;
      copy := copy[k := names[k]];
      left := left - {k};
    }
  }

  lemma NamedWith(l: seq<Module>, names: map<string, Module>, m: Module)
    requires Named(l, names) && (m.name != "" ==> m.name !in names)
    ensures Named([m] + l, if m.name != "" then names[m.name := m] else names)
  {
    assert forall x :: x in l ==> x in [m] + l;
  }

  lemma {:induction false} WithoutHas(l: seq<Module>, m: Module, x: Module)
    requires Distinct(l)
    ensures x in Without(l, m) <==> x in l && x != m
  {
    if m in l {
      var p :| 0 <= p < |l| && l[p] == m;
      WithoutAt(l, p);
    } else {
      WithoutAbsent(l, m);
    }
  }

  /** The names after deleteModule: an entry goes only if it is the module's own. */
  function Forgotten(names: map<string, Module>, m: Module): map<string, Module> {
    if m.name in names && names[m.name] == m then names - {m.name} else names
  }

  lemma NamesLeft(l: seq<Module>, names: map<string, Module>, m: Module)
      returns (l': seq<Module>, names': map<string, Module>)
    requires Named(l, names) && Distinct(l)
    ensures l' == Without(l, m) && names' == (if m.name != "" then Forgotten(names, m) else names)
    ensures Named(l', names') && names' == if m in l then names - {m.name} else names
  {
    NamedWithout(l, names, m);
    l', names' := Without(l, m), Forgotten(names, m);
  }

  lemma NamedWithout(l: seq<Module>, names: map<string, Module>, m: Module)
    requires Named(l, names) && Distinct(l)
    ensures Named(Without(l, m), Forgotten(names, m))
    ensures Forgotten(names, m) == if m in l then names - {m.name} else names
    ensures m.name == "" ==> Forgotten(names, m) == names
  {
    var l', names' := Without(l, m), Forgotten(names, m);
    forall x | x in l' && x.name != "" ensures x.name in names' && names'[x.name] == x {
      WithoutHas(l, m, x);
    }
    forall k | k in names' ensures k != "" && names'[k].name == k && names'[k] in l' {
      WithoutHas(l, m, names[k]);
    }
    assert m in l && m.name == "" ==> names - {m.name} == names;
  }
}
