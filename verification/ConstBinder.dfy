/** The constant binder as it runs: an object per scope, linked to that of the enclosing scope. */
module ConstBinderImpl {
  import opened Lang
  import opened ConstBinding

  class ConstBinder {
    var consts: seq<Const>
    var visibleConsts: seq<nat>
    var boundParentConsts: seq<nat>
    var boundParentConstsLookup: map<string, nat>
    const parent: ConstBinder?

    /** This binder and those around it. */
    ghost const chain: seq<ConstBinder>

    constructor (inputs: seq<Const>, parent: ConstBinder?)
      requires parent != null ==> parent.Valid()
      requires forall c | c in inputs :: c.Named?
      ensures Valid() && this.parent == parent && fresh(this)
      ensures Scopes() == [Entered(inputs)] + if parent == null then [] else parent.Scopes()
    {
      consts, visibleConsts := inputs, seq(|inputs|, i => i);
      boundParentConsts, boundParentConstsLookup := [], map[];
      this.parent := parent;
      chain := [this] + if parent == null then [] else parent.chain;
      new;
      assert chain[1..] == if parent == null then [] else parent.chain;
    }

    ghost predicate Valid()
      reads this, chain
      decreases |chain|
    {
      && chain != [] && chain[0] == this && this !in chain[1..]
      && (if parent == null then |chain| == 1
          else |chain| > 1 && parent == chain[1] && parent.chain == chain[1..] && parent.Valid())
    }

    ghost function Own(): Binding
      reads this
    {
      Binding(consts, visibleConsts, boundParentConsts, boundParentConstsLookup)
    }

    /** The chain of scopes, this one first. */
    ghost function Scopes(): (r: seq<Binding>)
      requires Valid()
      reads this, chain
      ensures |r| == |chain|
      decreases |chain|
    {
      [Own()] + if parent == null then [] else parent.Scopes()
    }

    method RegisterLocal(name: string, typ: TypeName) returns (id: nat)
      requires Valid() && Find(consts, name).None?
      modifies this
      ensures Valid() && id == |old(consts)| && Scopes() == RegisterAt(old(Scopes()), 0, name, typ)
    {
      id := |consts|;
      ghost var outer := if parent == null then [] else parent.Scopes();
      consts := consts + [Named(name, typ)];
      visibleConsts := visibleConsts + [id];
      assert Scopes() == [Own()] + outer;
    }

    method SetVisibleConsts(ids: seq<nat>)
      requires Valid()
      modifies this
      ensures Valid() && Scopes() == old(Scopes())[0 := old(Own()).(visible := ids)]
    {
      ghost var outer := if parent == null then [] else parent.Scopes();
      visibleConsts := ids;
      assert Scopes() == [Own()] + outer;
    }

    method CanBindName(name: string) returns (can: bool)
      requires Valid()
      ensures can == CanBind(Scopes(), name)
      decreases |chain|
    {
      var constId := Find(consts, name);
      if constId.Some? && constId.value in visibleConsts { return true; }
      assert Scopes()[0] == Own() && Scopes()[1..] == if parent == null then [] else parent.Scopes();
      if parent == null { return false; }
      can := parent.CanBindName(name);
    }

    method DoesExistButNotVisible(name: string) returns (exist: bool)
      requires Valid()
      ensures exist == ExistsButNotVisible(Scopes(), name)
      decreases |chain|
    {
      var constId := Find(consts, name);
      if constId.Some? && constId.value !in visibleConsts { return true; }
      assert Scopes()[0] == Own() && Scopes()[1..] == if parent == null then [] else parent.Scopes();
      if parent == null { return false; }
      exist := parent.DoesExistButNotVisible(name);
    }

    /** Captures the name in every binder between the one that declares it and this one. */
    method BindName(name: string) returns (id: Option<nat>)
      requires Valid() && Good(Scopes())
      modifies chain
      ensures Valid() && (id, Scopes()) == Bind(old(Scopes()), name) && Good(Scopes())
      decreases |chain|
    {
      hide Bind, Good, Nearest, Denotes, CanBind, AllExtend;
      ghost var ss := Scopes();
      BindIsRight(ss, name);
      BindAtOnce(ss, name);
      var localConst := Find(consts, name);
      if localConst.Some? && localConst.value in visibleConsts { return localConst; }
      if parent == null { return None; }
      assert ss[0] == Own() && ss[1..] == parent.Scopes();

      // A constant of the parent that was bound before.
      if name in boundParentConstsLookup { return Some(boundParentConstsLookup[name]); }

      OuterGood(ss);
      BindIsRight(ss[1..], name);
      var parentConst := parent.BindName(name);
      ghost var outer := parent.Scopes();
      if parentConst.None? {
        BindUnfoldNone(ss, name);
        assert Scopes() == [ss[0]] + outer;
        return None;
      }
      assert outer[0] == parent.Own();
      var parentConstType := parent.consts[parentConst.value].typ;
      BindUnfoldSome(ss, name);

      var boundLocalConst := |consts|;
      consts := consts + [Captured(parentConstType)];
      boundParentConsts := boundParentConsts + [parentConst.value];
      boundParentConstsLookup := boundParentConstsLookup[name := boundLocalConst];
      assert Own() == Capture(ss[0], name, parentConst.value, parentConstType);
      assert Scopes() == [Own()] + outer;
      id := Some(boundLocalConst);
    }
  }
}
