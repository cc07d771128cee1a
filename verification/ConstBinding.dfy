/** How anonymous functions capture constants of the functions around them. A chain of scopes is a
    sequence, the innermost one first. */
module ConstBinding {
  import opened Lang

  type TypeName = nat

  /** A constant with a name of the program, or one bound to a constant of the enclosing scope. Bound
      constants have reserved names, which no identifier can be. */
  datatype Const = Named(name: string, typ: TypeName) | Captured(typ: TypeName)

  /** The identifier of a constant is its position. `captured` lists the constants of the enclosing scope
      that are bound here, `lookup` the bound constants by name. */
  datatype Binding =
    Binding(consts: seq<Const>, visible: seq<nat>, captured: seq<nat>, lookup: map<string, nat>)

  /** The constant with this name, declared in this scope. */
  function Find(cs: seq<Const>, name: string): (r: Option<nat>)
    ensures r.Some? ==> r.value < |cs| && cs[r.value].Named? && cs[r.value].name == name
    ensures r.None? ==> forall c | c in cs :: !(c.Named? && c.name == name)
  {
    if cs == [] then None
    else if cs[0].Named? && cs[0].name == name then Some(0)
    else
      match Find(cs[1..], name)
      case Some(i) => Some(i + 1)
      case None => None
  }

  predicate Visible(s: Binding, name: string) {
    Find(s.consts, name).Some? && Find(s.consts, name).value in s.visible
  }

  predicate CanBind(ss: seq<Binding>, name: string) {
    ss != [] && (Visible(ss[0], name) || CanBind(ss[1..], name))
  }

  predicate ExistsButNotVisible(ss: seq<Binding>, name: string) {
    ss != [] && ((Find(ss[0].consts, name).Some? && Find(ss[0].consts, name).value !in ss[0].visible)
                 || ExistsButNotVisible(ss[1..], name))
  }

  /** The scope with one more bound constant. */
  function Capture(s: Binding, name: string, parent: nat, typ: TypeName): Binding {
    Binding(s.consts + [Captured(typ)], s.visible, s.captured + [parent], s.lookup[name := |s.consts|])
  }

  /** Looking a name up, capturing it in every scope between the one that declares it and the innermost. */
  function Bind(ss: seq<Binding>, name: string): (r: (Option<nat>, seq<Binding>))
    ensures |r.1| == |ss|
  {
    if ss == [] then (None, ss)
    else
      var s := ss[0];
      if Visible(s, name) then (Find(s.consts, name), ss)
      else if |ss| == 1 then (None, ss)
      else if name in s.lookup then (Some(s.lookup[name]), ss)
      else
        var (p, rest) := Bind(ss[1..], name);
        if p.None? then (None, [s] + rest)
        else
          var typ := if p.value < |rest[0].consts| then rest[0].consts[p.value].typ else 0;
          (Some(|s.consts|), [Capture(s, name, p.value, typ)] + rest)
  }

  // ----- What a constant stands for -----

  /** How many of these constants are bound ones. */
  function BoundCount(cs: seq<Const>): (r: nat)
    ensures r <= |cs|
  {
    if cs == [] then 0 else BoundCount(cs[..|cs| - 1]) + if cs[|cs| - 1].Captured? then 1 else 0
  }

  /** A declaration: how many scopes further out, and which constant there. */
  type Place = (nat, nat)

  function Outer(p: Place): Place {
    (p.0 + 1, p.1)
  }

  /** Following a bound constant outwards to the declared one. */
  function Denotes(ss: seq<Binding>, id: nat): Place
    decreases |ss|
  {
    if ss == [] || id >= |ss[0].consts| || ss[0].consts[id].Named? || |ss| == 1
       || BoundCount(ss[0].consts[..id]) >= |ss[0].captured| then (0, id)
    else Outer(Denotes(ss[1..], ss[0].captured[BoundCount(ss[0].consts[..id])]))
  }

  /** The nearest visible declaration. */
  function Nearest(ss: seq<Binding>, name: string): (r: Option<Place>)
    ensures r.Some? <==> CanBind(ss, name)
  {
    if ss == [] then None
    else if Visible(ss[0], name) then Some((0, Find(ss[0].consts, name).value))
    else
      match Nearest(ss[1..], name)
      case Some(p) => Some(Outer(p))
      case None => None
  }

  // ----- The invariant -----

  predicate NamesDistinct(cs: seq<Const>) {
    forall i, j | 0 <= i < j < |cs| && cs[i].Named? && cs[j].Named? :: cs[i].name != cs[j].name
  }

  /** Every bound constant belongs to one name and every name to one bound constant. */
  ghost predicate LookupOk(cs: seq<Const>, lookup: map<string, nat>) {
    && (forall n | n in lookup :: lookup[n] < |cs| && cs[lookup[n]].Captured?)
    && (forall m, n | m in lookup && n in lookup && lookup[m] == lookup[n] :: m == n)
    && (forall id | 0 <= id < |cs| && cs[id].Captured? :: HasName(lookup, id))
  }

  ghost predicate HasName(lookup: map<string, nat>, id: nat) {
    exists n :: n in lookup && lookup[n] == id
  }

  ghost predicate ScopeOk(s: Binding) {
    && (forall v | v in s.visible :: v < |s.consts|) && NamesDistinct(s.consts) && LookupOk(s.consts, s.lookup)
    && |s.captured| == BoundCount(s.consts)
  }

  /** The k-th bound constant has the type of the k-th captured one. */
  ghost predicate Linked(s: Binding, parent: Binding) {
    forall id | 0 <= id < |s.consts| && s.consts[id].Captured? ::
      var k := BoundCount(s.consts[..id]);
      && k < |s.captured| && s.captured[k] < |parent.consts|
      && parent.consts[s.captured[k]].typ == s.consts[id].typ
  }

  /** What a bound constant stands for is what its name means in the scope around. */
  ghost predicate Current(ss: seq<Binding>)
    requires ss != []
  {
    forall n | n in ss[0].lookup ::
      Nearest(ss[1..], n).Some? && Denotes(ss, ss[0].lookup[n]) == Outer(Nearest(ss[1..], n).value)
  }

  ghost predicate Good(ss: seq<Binding>) {
    ss != [] ==>
      && ScopeOk(ss[0]) && Good(ss[1..]) && Current(ss)
      && (if |ss| == 1 then ss[0].captured == [] && ss[0].lookup == map[] else Linked(ss[0], ss[1]))
  }

  // ----- Binding -----

  /** Only bound constants were added. */
  ghost predicate Extends(s: Binding, t: Binding) {
    && Prefixes(s, t) && (forall i | |s.consts| <= i < |t.consts| :: t.consts[i].Captured?)
    && t.visible == s.visible
    && (forall n | n in s.lookup :: n in t.lookup && t.lookup[n] == s.lookup[n])
  }

  /** No constant was removed or changed. */
  ghost predicate Prefixes(s: Binding, t: Binding) {
    s.consts <= t.consts && s.captured <= t.captured
  }

  ghost predicate AllPrefixes(ss: seq<Binding>, ts: seq<Binding>) {
    |ss| == |ts| && forall i | 0 <= i < |ss| :: Prefixes(ss[i], ts[i])
  }

  ghost predicate AllExtend(ss: seq<Binding>, ts: seq<Binding>) {
    |ss| == |ts| && forall i | 0 <= i < |ss| :: Extends(ss[i], ts[i])
  }

  lemma {:induction false} FindKept(cs: seq<Const>, ds: seq<Const>, name: string)
    requires cs <= ds && forall i | |cs| <= i < |ds| :: ds[i].Captured?
    ensures Find(ds, name) == Find(cs, name)
    decreases |ds|
  {
    if cs == [] {
      assert forall d | d in ds :: d.Captured?;
    } else {
      FindKept(cs[1..], ds[1..], name);
    }
  }

  /** Capturing does not change which declaration is nearest. */
  lemma {:induction false} NearestKept(ss: seq<Binding>, ts: seq<Binding>, name: string)
    requires AllExtend(ss, ts)
    ensures Nearest(ts, name) == Nearest(ss, name)
    decreases |ss|
  {
    if ss != [] {
      FindKept(ss[0].consts, ts[0].consts, name);
      NearestKept(ss[1..], ts[1..], name);
    }
  }

  lemma {:induction false} DenotesKept(ss: seq<Binding>, ts: seq<Binding>, id: nat)
    requires AllPrefixes(ss, ts) && Good(ss) && ss != [] && id < |ss[0].consts|
    ensures Denotes(ts, id) == Denotes(ss, id)
    decreases |ss|
  {
    var s, t := ss[0], ts[0];
    assert Prefixes(s, t) && t.consts[id] == s.consts[id];
    assert t.consts[..id] == s.consts[..id];
    if |ss| > 1 && s.consts[id].Captured? {
      assert Linked(s, ss[1]);
      DenotesKept(ss[1..], ts[1..], s.captured[BoundCount(s.consts[..id])]);
    }
  }

  lemma CaptureExtends(s: Binding, name: string, parent: nat, typ: TypeName)
    requires name !in s.lookup
    ensures Extends(s, Capture(s, name, parent, typ))
  {
    var t := Capture(s, name, parent, typ);
    forall i | 0 <= i <= |s.consts| ensures t.consts[..i] == s.consts[..i] {}
  }

  lemma ExtendsRefl(ss: seq<Binding>)
    ensures AllExtend(ss, ss)
  {}

  lemma CaptureOk(s: Binding, name: string, parent: nat, typ: TypeName)
    requires ScopeOk(s) && name !in s.lookup
    ensures ScopeOk(Capture(s, name, parent, typ))
  {
    hide LookupOk;
    assert (s.consts + [Captured(typ)])[..|s.consts|] == s.consts;
    LookupGrows(s.consts, s.lookup, name, typ);
  }

  lemma LookupGrows(cs: seq<Const>, lookup: map<string, nat>, name: string, typ: TypeName)
    requires LookupOk(cs, lookup) && name !in lookup
    ensures LookupOk(cs + [Captured(typ)], lookup[name := |cs|])
  {
    var ds, more := cs + [Captured(typ)], lookup[name := |cs|];
    forall id | 0 <= id < |ds| && ds[id].Captured? ensures HasName(more, id) {
      if id < |cs| {
        assert HasName(lookup, id);
        var n :| n in lookup && lookup[n] == id;
        assert n in more && more[n] == id;
      } else {
        assert name in more && more[name] == id;
      }
    }
  }

  lemma CaptureLinked(s: Binding, name: string, p: Binding, q: Binding, parent: nat)
    requires ScopeOk(s) && Linked(s, p) && p.consts <= q.consts && parent < |q.consts|
    ensures Linked(Capture(s, name, parent, q.consts[parent].typ), q)
  {
    var t := Capture(s, name, parent, q.consts[parent].typ);
    forall id | 0 <= id < |t.consts| && t.consts[id].Captured?
      ensures var k := BoundCount(t.consts[..id]);
              k < |t.captured| && t.captured[k] < |q.consts| && q.consts[t.captured[k]].typ == t.consts[id].typ
    {
      if id < |s.consts| {
        assert t.consts[..id] == s.consts[..id];
      } else {
        assert t.consts[..id] == s.consts;
      }
    }
  }

  /** What a bind has to do. */
  ghost predicate Bound(ss: seq<Binding>, name: string, r: Option<nat>, ts: seq<Binding>) {
    && Good(ts) && AllExtend(ss, ts) && (r.Some? <==> CanBind(ss, name))
    && (r.Some? ==> ts != [] && r.value < |ts[0].consts| && Nearest(ss, name) == Some(Denotes(ts, r.value)))
  }

  /** Binding succeeds exactly when it can, answers a constant that stands for the nearest visible
      declaration, and keeps the invariant of the whole chain. */
  lemma {:induction false} BindIsRight(ss: seq<Binding>, name: string)
    requires Good(ss)
    ensures Bound(ss, name, Bind(ss, name).0, Bind(ss, name).1)
    decreases |ss|
  {
    ExtendsRefl(ss);
    if ss != [] && !Visible(ss[0], name) && |ss| > 1 && name !in ss[0].lookup {
      BindIsRight(ss[1..], name);
      BindOuter(ss, name);
    }
  }

  lemma BindOuter(ss: seq<Binding>, name: string)
    requires Good(ss) && |ss| > 1 && !Visible(ss[0], name) && name !in ss[0].lookup
    requires Bound(ss[1..], name, Bind(ss[1..], name).0, Bind(ss[1..], name).1)
    ensures Bound(ss, name, Bind(ss, name).0, Bind(ss, name).1)
  {
    var s := ss[0];
    var (p, rest) := Bind(ss[1..], name);
    hide Bind, ScopeOk, NamesDistinct, LookupOk, Nearest, Denotes, Current, Linked;
    assert Good(ss[1..]) && |rest| == |ss| - 1;
    if p.None? {
      BindUnfoldNone(ss, name);
      NothingCaptured(ss, rest);
    } else {
      BindUnfoldSome(ss, name);
      NameCaptured(ss, name, p.value, rest);
    }
  }

  lemma BindUnfoldNone(ss: seq<Binding>, name: string)
    requires |ss| > 1 && !Visible(ss[0], name) && name !in ss[0].lookup && Bind(ss[1..], name).0.None?
    ensures Bind(ss, name) == (None, [ss[0]] + Bind(ss[1..], name).1)
  {}

  lemma BindUnfoldSome(ss: seq<Binding>, name: string)
    requires |ss| > 1 && !Visible(ss[0], name) && name !in ss[0].lookup && Bind(ss[1..], name).0.Some?
    requires var (p, rest) := Bind(ss[1..], name); p.value < |rest[0].consts|
    ensures var (p, rest) := Bind(ss[1..], name);
            Bind(ss, name) == (Some(|ss[0].consts|), [Capture(ss[0], name, p.value, rest[0].consts[p.value].typ)] + rest)
  {}

  lemma BindAtOnce(ss: seq<Binding>, name: string)
    requires ss != []
    ensures Visible(ss[0], name) ==> Bind(ss, name) == (Find(ss[0].consts, name), ss)
    ensures !Visible(ss[0], name) && |ss| == 1 ==> Bind(ss, name) == (None, ss)
    ensures !Visible(ss[0], name) && |ss| > 1 && name in ss[0].lookup ==> Bind(ss, name) == (Some(ss[0].lookup[name]), ss)
  {}

  lemma OuterGood(ss: seq<Binding>)
    requires Good(ss) && ss != []
    ensures Good(ss[1..])
  {}

  /** The enclosing scopes may have captured something, though not for this one. */
  lemma NothingCaptured(ss: seq<Binding>, rest: seq<Binding>)
    requires Good(ss) && |ss| > 1 && Good(rest) && AllExtend(ss[1..], rest)
    ensures Good([ss[0]] + rest) && AllExtend(ss, [ss[0]] + rest)
  {
    hide NamesDistinct, LookupOk, Nearest, Denotes;
    var ts := [ss[0]] + rest;
    assert ts[1..] == rest && AllExtend(ss, ts);
    CurrentKept(ss, ts);
    LinkedKept(ss[0], ss[1], rest[0]);
  }

  lemma LinkedKept(s: Binding, p: Binding, q: Binding)
    requires Linked(s, p) && p.consts <= q.consts
    ensures Linked(s, q)
  {}

  lemma NameCaptured(ss: seq<Binding>, name: string, p: nat, rest: seq<Binding>)
    requires Good(ss) && |ss| > 1 && name !in ss[0].lookup && !Visible(ss[0], name)
    requires Bound(ss[1..], name, Some(p), rest)
    ensures var t := Capture(ss[0], name, p, rest[0].consts[p].typ);
            Bound(ss, name, Some(|ss[0].consts|), [t] + rest)
  {
    hide ScopeOk, Linked, Denotes, Nearest, Visible, Extends;
    var s, typ := ss[0], rest[0].consts[p].typ;
    var t := Capture(s, name, p, typ);
    var ts := [t] + rest;
    assert ts[1..] == rest && AllExtend(ss[1..], rest);
    CaptureExtends(s, name, p, typ);
    assert AllExtend(ss, ts);
    CaptureOk(s, name, p, typ);
    ExtendsMeans(ss[1], rest[0]);
    CaptureLinked(s, name, ss[1], rest[0], p);
    assert |s.captured| == BoundCount(s.consts) by { CountOk(s); }
    DenotesCaptured(s, name, p, typ, rest);
    NearestOutside(ss, name);
    NearestKept(ss[1..], rest, name);
    CurrentGrows(ss, name, p, typ, rest);
  }

  lemma ExtendsMeans(s: Binding, t: Binding)
    requires Extends(s, t)
    ensures s.consts <= t.consts
  {}

  lemma CurrentGrows(ss: seq<Binding>, name: string, p: nat, typ: TypeName, rest: seq<Binding>)
    requires Good(ss) && ss != [] && AllExtend(ss, [Capture(ss[0], name, p, typ)] + rest)
    requires rest != [] && Nearest(rest, name) == Some(Denotes(rest, p))
    ensures Current([Capture(ss[0], name, p, typ)] + rest)
  {
    var s, t := ss[0], Capture(ss[0], name, p, typ);
    var ts := [t] + rest;
    assert ts[1..] == rest;
    assert |s.captured| == BoundCount(s.consts) by { CountOk(s); }
    DenotesCaptured(s, name, p, typ, rest);
    hide ScopeOk, Linked, Denotes, Nearest, Extends;
    CurrentKept(ss, ts);
    forall n | n in t.lookup
      ensures Nearest(ts[1..], n).Some? && Denotes(ts, t.lookup[n]) == Outer(Nearest(ts[1..], n).value)
    {
      if n == name {
        assert t.lookup[n] == |s.consts|;
      } else {
        LookupKept(s, name, p, typ, n);
      }
    }
  }

  lemma CountOk(s: Binding)
    requires ScopeOk(s)
    ensures |s.captured| == BoundCount(s.consts)
  {}

  lemma LookupKept(s: Binding, name: string, p: nat, typ: TypeName, n: string)
    requires n in s.lookup && n != name
    ensures Capture(s, name, p, typ).lookup[n] == s.lookup[n]
  {}

  lemma NearestOutside(ss: seq<Binding>, name: string)
    requires ss != [] && !Visible(ss[0], name) && Nearest(ss[1..], name).Some?
    ensures Nearest(ss, name) == Some(Outer(Nearest(ss[1..], name).value))
  {}

  lemma DenotesCaptured(s: Binding, name: string, p: nat, typ: TypeName, rest: seq<Binding>)
    requires |s.captured| == BoundCount(s.consts) && rest != []
    ensures Denotes([Capture(s, name, p, typ)] + rest, |s.consts|) == Outer(Denotes(rest, p))
  {
    var t := Capture(s, name, p, typ);
    assert t.consts[..|s.consts|] == s.consts && ([t] + rest)[1..] == rest;
  }

  /** The names that were captured before still mean the same. */
  lemma CurrentKept(ss: seq<Binding>, ts: seq<Binding>)
    requires Good(ss) && ss != [] && AllExtend(ss, ts)
    ensures forall n | n in ss[0].lookup ::
              && n in ts[0].lookup && Nearest(ts[1..], n).Some?
              && Denotes(ts, ts[0].lookup[n]) == Outer(Nearest(ts[1..], n).value)
  {
    assert Extends(ss[0], ts[0]);
    forall n | n in ss[0].lookup
      ensures n in ts[0].lookup && Nearest(ts[1..], n).Some?
              && Denotes(ts, ts[0].lookup[n]) == Outer(Nearest(ts[1..], n).value)
    {
      NearestKept(ss[1..], ts[1..], n);
      assert AllPrefixes(ss, ts) by { forall i | 0 <= i < |ss| ensures Prefixes(ss[i], ts[i]) { assert Extends(ss[i], ts[i]); } }
      DenotesKept(ss, ts, ss[0].lookup[n]);
    }
  }

  /** A bound constant has the type of the declaration it stands for. */
  lemma {:induction false} TypeIsKept(ss: seq<Binding>, id: nat)
    requires Good(ss) && ss != [] && id < |ss[0].consts|
    ensures var (k, d) := Denotes(ss, id);
            k < |ss| && d < |ss[k].consts| && ss[k].consts[d].Named? && ss[k].consts[d].typ == ss[0].consts[id].typ
    decreases |ss|
  {
    var s := ss[0];
    if s.consts[id].Captured? {
      if |ss| == 1 {
        NoneBound(s.consts, id);
      } else {
        assert Linked(s, ss[1]);
        TypeIsKept(ss[1..], s.captured[BoundCount(s.consts[..id])]);
      }
    }
  }

  lemma {:induction false} NoneBound(cs: seq<Const>, id: nat)
    requires id < |cs| && cs[id].Captured?
    ensures BoundCount(cs) > 0
    decreases |cs|
  {
    if id < |cs| - 1 { NoneBound(cs[..|cs| - 1], id); }
  }

  // ----- Declaring constants -----

  function Registered(s: Binding, name: string, typ: TypeName): Binding {
    s.(consts := s.consts + [Named(name, typ)], visible := s.visible + [|s.consts|])
  }

  function RegisterAt(ss: seq<Binding>, k: nat, name: string, typ: TypeName): seq<Binding>
    requires k < |ss|
  {
    ss[k := Registered(ss[k], name, typ)]
  }

  lemma {:induction false} FindRegistered(cs: seq<Const>, name: string, typ: TypeName, n: string)
    requires Find(cs, name).None?
    ensures Find(cs + [Named(name, typ)], n) == if n == name then Some(|cs|) else Find(cs, n)
  {
    if cs == [] {
      assert [Named(name, typ)][1..] == [] && cs + [Named(name, typ)] == [Named(name, typ)];
    } else {
      assert (cs + [Named(name, typ)])[1..] == cs[1..] + [Named(name, typ)];
      FindRegistered(cs[1..], name, typ, n);
    }
  }

  /** A new declaration is the nearest one unless a scope further in has one that is visible. */
  lemma {:induction false} NearestRegistered(ss: seq<Binding>, k: nat, name: string, typ: TypeName, n: string)
    requires k < |ss| && Find(ss[k].consts, name).None? && forall v | v in ss[k].visible :: v < |ss[k].consts|
    ensures Nearest(RegisterAt(ss, k, name, typ), n)
         == if n == name && !CanBind(ss[..k], name) then Some((k, |ss[k].consts|)) else Nearest(ss, n)
    decreases k
  {
    var ts := RegisterAt(ss, k, name, typ);
    if k == 0 {
      assert ts[1..] == ss[1..];
      FindRegistered(ss[0].consts, name, typ, n);
    } else {
      assert ts[1..] == RegisterAt(ss[1..], k - 1, name, typ) && ss[..k][1..] == ss[1..][..k - 1] && ss[..k][0] == ss[0];
      NearestRegistered(ss[1..], k - 1, name, typ, n);
    }
  }

  /** A declaration that is neither in the first k scopes nor in the next one is further out. */
  lemma {:induction false} NearestIsFurther(ss: seq<Binding>, k: nat, name: string)
    requires k < |ss| && Find(ss[k].consts, name).None? && !CanBind(ss[..k], name)
    ensures Nearest(ss, name).Some? ==> Nearest(ss, name).value.0 > k
    decreases k
  {
    if k > 0 {
      assert ss[..k][1..] == ss[1..][..k - 1] && ss[..k][0] == ss[0];
      NearestIsFurther(ss[1..], k - 1, name);
    }
  }

  lemma RegisteredOk(s: Binding, name: string, typ: TypeName)
    requires ScopeOk(s) && Find(s.consts, name).None?
    ensures ScopeOk(Registered(s, name, typ))
  {
    hide NamesDistinct, LookupOk, Find;
    assert (s.consts + [Named(name, typ)])[..|s.consts|] == s.consts;
    NewName(s.consts, name, typ);
    LookupStays(s.consts, s.lookup, name, typ);
  }

  lemma NewName(cs: seq<Const>, name: string, typ: TypeName)
    requires NamesDistinct(cs) && Find(cs, name).None?
    ensures NamesDistinct(cs + [Named(name, typ)])
  {
    forall i | 0 <= i < |cs| && cs[i].Named? ensures cs[i].name != name { assert cs[i] in cs; }
  }

  lemma LookupStays(cs: seq<Const>, lookup: map<string, nat>, name: string, typ: TypeName)
    requires LookupOk(cs, lookup)
    ensures LookupOk(cs + [Named(name, typ)], lookup)
  {
    hide HasName;
  }

  lemma RegisteredLinked(s: Binding, p: Binding, name: string, typ: TypeName)
    requires Linked(s, p)
    ensures Linked(Registered(s, name, typ), p)
  {
    var t := Registered(s, name, typ);
    forall id | 0 <= id < |t.consts| && t.consts[id].Captured?
      ensures var k := BoundCount(t.consts[..id]);
              k < |t.captured| && t.captured[k] < |p.consts| && p.consts[t.captured[k]].typ == t.consts[id].typ
    {
      assert t.consts[..id] == s.consts[..id];
    }
  }

  /** Every scope inside that captured the name sees a visible declaration before it comes to the k-th. */
  ghost predicate Shielded(ss: seq<Binding>, k: nat, name: string)
    requires k < |ss|
    decreases k
  {
    k > 0 ==> (name in ss[0].lookup ==> CanBind(ss[1..k], name)) && Shielded(ss[1..], k - 1, name)
  }

  /** Declaring a name in the k-th scope of a chain keeps the invariant exactly when no scope inside has
      captured that name from further out. In particular the innermost scope can always declare. */
  lemma {:induction false} RegisterKeepsIff(ss: seq<Binding>, k: nat, name: string, typ: TypeName)
    requires Good(ss) && k < |ss| && Find(ss[k].consts, name).None?
    ensures Good(RegisterAt(ss, k, name, typ)) <==> Shielded(ss, k, name)
    decreases k
  {
    var ts := RegisterAt(ss, k, name, typ);
    if k == 0 {
      assert ts[1..] == ss[1..];
      RegisteredOk(ss[0], name, typ);
      if |ss| > 1 { RegisteredLinked(ss[0], ss[1], name, typ); }
      CurrentAfter(ss, 0, name, typ);
    } else {
      assert ts[1..] == RegisterAt(ss[1..], k - 1, name, typ) && ts[0] == ss[0];
      RegisterKeepsIff(ss[1..], k - 1, name, typ);
      CurrentAfter(ss, k, name, typ);
      assert Linked(ss[0], ss[1]) && ss[1].consts <= ts[1].consts;
      LinkedKept(ss[0], ss[1], ts[1]);
    }
  }

  lemma CurrentAfter(ss: seq<Binding>, k: nat, name: string, typ: TypeName)
    requires Good(ss) && k < |ss| && Find(ss[k].consts, name).None?
    ensures Current(RegisterAt(ss, k, name, typ))
       <==> k == 0 || (name in ss[0].lookup ==> CanBind(ss[1..k], name))
  {
    var ts := RegisterAt(ss, k, name, typ);
    assert AllPrefixes(ss, ts);
    VisibleInRange(ss, k);
    forall n | n in ss[0].lookup
      ensures Denotes(ts, ss[0].lookup[n]) == Denotes(ss, ss[0].lookup[n]) == Outer(Nearest(ss[1..], n).value)
    {
      DenotesKept(ss, ts, ss[0].lookup[n]);
    }
    hide Denotes;
    if k == 0 {
      assert ts[1..] == ss[1..];
    } else {
      assert ts[1..] == RegisterAt(ss[1..], k - 1, name, typ) && ts[0] == ss[0];
      assert ss[1..][..k - 1] == ss[1..k];
      forall n ensures Nearest(ts[1..], n)
        == if n == name && !CanBind(ss[1..k], name) then Some((k - 1, |ss[k].consts|)) else Nearest(ss[1..], n)
      {
        NearestRegistered(ss[1..], k - 1, name, typ, n);
      }
      if !CanBind(ss[1..k], name) { NearestIsFurther(ss[1..], k - 1, name); }
    }
  }

  lemma {:induction false} VisibleInRange(ss: seq<Binding>, k: nat)
    requires Good(ss) && k < |ss|
    ensures ScopeOk(ss[k]) && forall v | v in ss[k].visible :: v < |ss[k].consts|
    decreases k
  {
    if k > 0 { VisibleInRange(ss[1..], k - 1); }
  }

  // ----- Whole runs -----

  /** What the front end does while it analyses nested anonymous functions. Only the innermost scope
      changes: it declares a constant, changes what is visible when a branch starts or ends, or looks a
      name up; and scopes are entered and left. */
  datatype Act =
    | Enter(inputs: seq<Const>)
    | Declare(name: string, typ: TypeName)
    | SetVisible(ids: seq<nat>)
    | LookUp(name: string)
    | Leave

  predicate Possible(ss: seq<Binding>, a: Act) {
    match a
    case Enter(inputs) => NamesDistinct(inputs) && forall c | c in inputs :: c.Named?
    case Declare(name, _) => ss != [] && Find(ss[0].consts, name).None?
    case SetVisible(ids) => ss != [] && forall v | v in ids :: v < |ss[0].consts|
    case LookUp(_) => ss != []
    case Leave => ss != []
  }

  function Entered(inputs: seq<Const>): Binding {
    Binding(inputs, seq(|inputs|, i => i), [], map[])
  }

  function Next(ss: seq<Binding>, a: Act): seq<Binding>
    requires Possible(ss, a)
  {
    match a
    case Enter(inputs) => [Entered(inputs)] + ss
    case Declare(name, typ) => RegisterAt(ss, 0, name, typ)
    case SetVisible(ids) => ss[0 := ss[0].(visible := ids)]
    case LookUp(name) => Bind(ss, name).1
    case Leave => ss[1..]
  }

  ghost predicate Reaches(ss: seq<Binding>, acts: seq<Act>, ts: seq<Binding>)
    decreases |acts|
  {
    if acts == [] then ss == ts else Possible(ss, acts[0]) && Reaches(Next(ss, acts[0]), acts[1..], ts)
  }

  lemma StepKeeps(ss: seq<Binding>, a: Act)
    requires Good(ss) && Possible(ss, a)
    ensures Good(Next(ss, a))
  {
    match a
    case Enter(inputs) =>
      NothingBound(inputs);
      var ts := [Entered(inputs)] + ss;
      assert ts[1..] == ss;
    case Declare(name, typ) => RegisterKeepsIff(ss, 0, name, typ);
    case SetVisible(ids) => VisibleChanged(ss, ids);
    case LookUp(name) => BindIsRight(ss, name);
    case Leave =>
  }

  lemma {:induction false} NothingBound(cs: seq<Const>)
    requires forall c | c in cs :: c.Named?
    ensures BoundCount(cs) == 0
  {
    if cs != [] {
      assert forall c | c in cs[..|cs| - 1] :: c in cs;
      assert cs[|cs| - 1] in cs;
      NothingBound(cs[..|cs| - 1]);
    }
  }

  lemma VisibleChanged(ss: seq<Binding>, ids: seq<nat>)
    requires Good(ss) && ss != [] && forall v | v in ids :: v < |ss[0].consts|
    ensures Good(ss[0 := ss[0].(visible := ids)])
  {
    var ts := ss[0 := ss[0].(visible := ids)];
    assert ts[1..] == ss[1..] && AllPrefixes(ss, ts);
    forall n | n in ss[0].lookup ensures Denotes(ts, ss[0].lookup[n]) == Denotes(ss, ss[0].lookup[n]) {
      DenotesKept(ss, ts, ss[0].lookup[n]);
    }
  }

  lemma {:induction false} RunKeeps(ss: seq<Binding>, acts: seq<Act>, ts: seq<Binding>)
    requires Good(ss) && Reaches(ss, acts, ts)
    ensures Good(ts)
    decreases |acts|
  {
    if acts != [] {
      StepKeeps(ss, acts[0]);
      RunKeeps(Next(ss, acts[0]), acts[1..], ts);
    }
  }

  /** Constant d of the k-th scope has this name and may be seen. */
  predicate IsVisibleAt(ss: seq<Binding>, name: string, k: nat, d: nat) {
    && k < |ss| && d < |ss[k].consts| && ss[k].consts[d].Named? && ss[k].consts[d].name == name
    && d in ss[k].visible
  }

  /** The same constant, with none of this name to be seen further in or beside it. */
  ghost predicate IsNearestAt(ss: seq<Binding>, name: string, k: nat, d: nat) {
    && IsVisibleAt(ss, name, k, d)
    && (forall k2: nat, d2: nat | IsVisibleAt(ss, name, k2, d2) && k2 <= k :: k2 == k && d2 == d)
  }

  /** The main theorem: after any run, looking a name up succeeds exactly when a scope has a visible
      declaration of it; the constant it answers stands for the one in the innermost such scope and has
      its type, and no name is captured twice by a scope. */
  lemma CaptureIsCorrect(acts: seq<Act>, ss: seq<Binding>, name: string)
    requires Reaches([], acts, ss) && ss != []
    ensures var (r, ts) := Bind(ss, name);
            && (r.Some? <==> exists k: nat, d: nat :: IsVisibleAt(ss, name, k, d))
            && (CanBind(ss, name) <==> exists k: nat, d: nat :: IsVisibleAt(ss, name, k, d))
            && (r.Some? ==>
                  && r.value < |ts[0].consts|
                  && var (k, d) := Denotes(ts, r.value);
                     IsNearestAt(ss, name, k, d) && ss[k].consts[d].typ == ts[0].consts[r.value].typ)
            && |ts[0].captured| == BoundCount(ts[0].consts) == |ts[0].lookup|
  {
    RunKeeps([], acts, ss);
    BindIsRight(ss, name);
    CanBindMeans(ss, name);
    var (r, ts) := Bind(ss, name);
    hide Bind, Denotes;
    OnePerName(ts[0].consts, ts[0].lookup);
    if r.Some? {
      TypeIsKept(ts, r.value);
      NearestMeans(ss, name);
      var (k, d) := Denotes(ts, r.value);
      assert Extends(ss[k], ts[k]);
    }
  }

  /** A declaration outside the set of visible constants is not bound, whatever else is. */
  lemma HiddenIsNotBound(acts: seq<Act>, ss: seq<Binding>, ids: seq<nat>, d: nat)
    requires Reaches([], acts, ss) && Possible(ss, SetVisible(ids))
    requires d < |ss[0].consts| && ss[0].consts[d].Named? && d !in ids
    ensures var (r, ts) := Bind(Next(ss, SetVisible(ids)), ss[0].consts[d].name);
            r.Some? ==> Denotes(ts, r.value) != (0, d)
  {
    RunMore([], acts, ss, SetVisible(ids));
    hide Bind, Denotes;
    CaptureIsCorrect(acts + [SetVisible(ids)], Next(ss, SetVisible(ids)), ss[0].consts[d].name);
  }

  /** The inputs of a scope just entered are bound to themselves, and so is a constant just declared. */
  lemma NewIsBound(acts: seq<Act>, ss: seq<Binding>, a: Act, d: nat)
    requires Reaches([], acts, ss) && Possible(ss, a)
    requires (a.Enter? && d < |a.inputs|) || (a.Declare? && d == |ss[0].consts|)
    ensures var (r, ts) := Bind(Next(ss, a), if a.Enter? then a.inputs[d].name else a.name);
            r.Some? && Denotes(ts, r.value) == (0, d)
  {
    RunMore([], acts, ss, a);
    var name, now := if a.Enter? then a.inputs[d].name else a.name, Next(ss, a);
    assert IsVisibleAt(now, name, 0, d) by {
      if a.Enter? { assert now[0].visible[d] == d; } else { assert now[0].visible[|ss[0].visible|] == d; }
    }
    hide Bind, Denotes, IsVisibleAt;
    CaptureIsCorrect(acts + [a], now, name);
  }

  lemma {:induction false} RunMore(ss: seq<Binding>, acts: seq<Act>, ts: seq<Binding>, a: Act)
    requires Reaches(ss, acts, ts) && Possible(ts, a)
    ensures Reaches(ss, acts + [a], Next(ts, a))
    decreases |acts|
  {
    if acts == [] {
      assert [a][1..] == [] && [] + [a] == [a];
    } else {
      RunMore(Next(ss, acts[0]), acts[1..], ts, a);
      assert (acts + [a])[1..] == acts[1..] + [a];
    }
  }

  /** The declaration with a name is the only one in its scope. */
  lemma {:induction false} FindMeans(cs: seq<Const>, name: string, d: nat)
    requires NamesDistinct(cs)
    ensures Find(cs, name) == Some(d) <==> d < |cs| && cs[d].Named? && cs[d].name == name
  {
    if Find(cs, name).None? && d < |cs| { assert cs[d] in cs; }
  }

  lemma VisibleMeans(s: Binding, name: string)
    requires NamesDistinct(s.consts)
    ensures Visible(s, name)
       <==> exists d: nat :: d < |s.consts| && s.consts[d].Named? && s.consts[d].name == name && d in s.visible
  {
    forall d: nat ensures Find(s.consts, name) == Some(d) <==> d < |s.consts| && s.consts[d].Named? && s.consts[d].name == name {
      FindMeans(s.consts, name, d);
    }
  }

  lemma {:induction false} CanBindMeans(ss: seq<Binding>, name: string)
    requires Good(ss)
    ensures CanBind(ss, name) <==> exists k: nat, d: nat :: IsVisibleAt(ss, name, k, d)
    decreases |ss|
  {
    if ss != [] {
      assert ScopeOk(ss[0]);
      VisibleMeans(ss[0], name);
      CanBindMeans(ss[1..], name);
      forall k: nat, d: nat ensures IsVisibleAt(ss, name, k + 1, d) <==> IsVisibleAt(ss[1..], name, k, d) {}
      if k: nat, d: nat :| IsVisibleAt(ss, name, k, d) {
        if k > 0 { assert IsVisibleAt(ss[1..], name, k - 1, d); } else { assert ss[0].consts[d].Named?; }
      }
      if CanBind(ss, name) {
        if Visible(ss[0], name) {
          assert IsVisibleAt(ss, name, 0, Find(ss[0].consts, name).value);
        } else {
          var k: nat, d: nat :| IsVisibleAt(ss[1..], name, k, d);
          assert IsVisibleAt(ss, name, k + 1, d);
        }
      }
    }
  }

  lemma {:induction false} NearestMeans(ss: seq<Binding>, name: string)
    requires Good(ss) && CanBind(ss, name)
    ensures IsNearestAt(ss, name, Nearest(ss, name).value.0, Nearest(ss, name).value.1)
    decreases |ss|
  {
    assert ScopeOk(ss[0]);
    VisibleMeans(ss[0], name);
    var (k, d) := Nearest(ss, name).value;
    if Visible(ss[0], name) {
      forall d2: nat | IsVisibleAt(ss, name, 0, d2) ensures d2 == d { FindMeans(ss[0].consts, name, d2); }
    } else {
      NearestMeans(ss[1..], name);
      forall k2: nat, d2: nat | IsVisibleAt(ss, name, k2, d2) && k2 <= k ensures k2 == k && d2 == d {
        if k2 > 0 { assert IsVisibleAt(ss[1..], name, k2 - 1, d2); }
      }
    }
  }

  /** A name is known but may not be seen exactly when some scope has such a declaration. */
  lemma {:induction false} HiddenMeans(ss: seq<Binding>, name: string)
    requires Good(ss)
    ensures ExistsButNotVisible(ss, name)
       <==> exists k: nat, d: nat :: IsHiddenAt(ss, name, k, d)
    decreases |ss|
  {
    if ss != [] {
      assert ScopeOk(ss[0]);
      HiddenMeans(ss[1..], name);
      if k: nat, d: nat :| IsHiddenAt(ss, name, k, d) {
        if k > 0 { assert IsHiddenAt(ss[1..], name, k - 1, d); } else { FindMeans(ss[0].consts, name, d); }
      }
      if ExistsButNotVisible(ss, name) {
        if ExistsButNotVisible(ss[1..], name) {
          var k: nat, d: nat :| IsHiddenAt(ss[1..], name, k, d);
          assert IsHiddenAt(ss, name, k + 1, d);
        } else {
          assert IsHiddenAt(ss, name, 0, Find(ss[0].consts, name).value);
        }
      }
    }
  }

  predicate IsHiddenAt(ss: seq<Binding>, name: string, k: nat, d: nat) {
    && k < |ss| && d < |ss[k].consts| && ss[k].consts[d].Named? && ss[k].consts[d].name == name
    && d !in ss[k].visible
  }

  lemma {:induction false} OnePerName(cs: seq<Const>, lookup: map<string, nat>)
    requires LookupOk(cs, lookup)
    ensures |lookup| == BoundCount(cs)
    decreases |cs|
  {
    if cs == [] {
      assert forall n :: n !in lookup;
      assert lookup == map[];
    } else {
      var id := |cs| - 1;
      if cs[id].Captured? {
        var n := LastName(cs, lookup);
        hide LookupOk;
        OnePerName(cs[..id], lookup - {n});
        assert (lookup - {n}).Keys == lookup.Keys - {n} && |lookup.Keys| == |(lookup - {n}).Keys| + 1;
      } else {
        NotLast(cs, lookup);
        OnePerName(cs[..id], lookup);
      }
    }
  }

  lemma LastName(cs: seq<Const>, lookup: map<string, nat>) returns (n: string)
    requires LookupOk(cs, lookup) && cs != [] && cs[|cs| - 1].Captured?
    ensures n in lookup && LookupOk(cs[..|cs| - 1], lookup - {n})
  {
    var id := |cs| - 1;
    var init := cs[..id];
    assert HasName(lookup, id);
    n :| n in lookup && lookup[n] == id;
    forall i | 0 <= i < |init| && init[i].Captured? ensures HasName(lookup - {n}, i) {
      assert HasName(lookup, i);
      var m :| m in lookup && lookup[m] == i;
      assert m in lookup - {n} && (lookup - {n})[m] == i;
    }
  }

  lemma NotLast(cs: seq<Const>, lookup: map<string, nat>)
    requires LookupOk(cs, lookup) && cs != [] && cs[|cs| - 1].Named?
    ensures LookupOk(cs[..|cs| - 1], lookup)
  {
    var init := cs[..|cs| - 1];
    forall i | 0 <= i < |init| && init[i].Captured? ensures HasName(lookup, i) {
      assert cs[i].Captured?;
    }
  }

  /** A scope outside the innermost one must not declare a name that was captured through it: here x is
      captured from the outermost of three scopes, and then the middle one declares an x of its own. */
  lemma OuterDeclarationIsMissed()
    ensures var ss := [Entered([]), Entered([]), Entered([Named("x", 1)])];
            var ts := RegisterAt(Bind(ss, "x").1, 1, "x", 2);
            && Good(Bind(ss, "x").1) && Nearest(ts, "x") == Some((1, 1))
            && Bind(ts, "x").0.Some? && Denotes(ts, Bind(ts, "x").0.value) == (2, 0)
  {
    hide ScopeOk, LookupOk, Current;
    var a, b, a1 := Entered([]), Entered([Named("x", 1)]), Binding([Captured(1)], [], [0], map["x" := 0]);
    var ss, ts := [a, a, b], [a1, Registered(a1, "x", 2), b];
    FirstLookUp(a, b, a1);
    OneScope(Named("x", 1));
    NoInputs(ss, a, b);
    BindIsRight(ss, "x");
    hide Bind, Good;
    assert RegisterAt([a1, a1, b], 1, "x", 2) == ts;
    SecondLookUp(a1, b, ts);
  }

  lemma FirstLookUp(a: Binding, b: Binding, a1: Binding)
    requires a == Entered([]) && b == Entered([Named("x", 1)]) && a1 == Binding([Captured(1)], [], [0], map["x" := 0])
    ensures Bind([a, a, b], "x") == (Some(0), [a1, a1, b])
  {
    assert Find(b.consts, "x") == Some(0) && b.visible == [0];
    assert !Visible(a, "x") && Capture(a, "x", 0, 1) == a1;
    assert [a, a, b][1..] == [a, b] && [a, b][1..] == [b];
    assert Bind([b], "x") == (Some(0), [b]) && [a1] + [b] == [a1, b];
    assert Bind([a, b], "x") == (Some(0), [a1, b]) && [a1] + [a1, b] == [a1, a1, b];
  }

  lemma SecondLookUp(a1: Binding, b: Binding, ts: seq<Binding>)
    requires a1 == Binding([Captured(1)], [], [0], map["x" := 0]) && b == Entered([Named("x", 1)])
    requires ts == [a1, Registered(a1, "x", 2), b]
    ensures Nearest(ts, "x") == Some((1, 1)) && Bind(ts, "x").0 == Some(0) && Denotes(ts, 0) == (2, 0)
  {
    var m := Registered(a1, "x", 2);
    assert ts[1..] == [m, b] && [m, b][1..] == [b];
    assert m.consts == [Captured(1), Named("x", 2)] && m.consts[1..] == [Named("x", 2)] && m.visible == [1];
    assert Find(m.consts[1..], "x") == Some(0) && Find(m.consts, "x") == Some(1);
    assert a1.consts[1..] == [] && Find(a1.consts, "x") == None;
    assert !Visible(a1, "x") && Visible(m, "x");
    assert a1.consts[..0] == [] && m.consts[..0] == [] && BoundCount([]) == 0;
    assert Denotes([b], 0) == (0, 0) && Denotes([m, b], 0) == (1, 0);
  }

  lemma OneScope(c: Const)
    requires c.Named?
    ensures Good([Entered([c])])
  {
    NothingBound([c]);
    assert [Entered([c])][1..] == [];
  }

  lemma NoInputs(ss: seq<Binding>, a: Binding, b: Binding)
    requires ss == [a, a, b] && a == Entered([]) && Good([b])
    ensures Good(ss)
  {
    StepKeeps([b], Enter([]));
    StepKeeps([a] + [b], Enter([]));
    assert [a] + ([a] + [b]) == ss;
  }
}
