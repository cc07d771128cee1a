/** The assembler as the code generator sees it: a growing list of instructions, a table of declared
    labels and a counter for new ones. */
module Assembling {
  import opened Lang
  import opened Machine
  import opened CodeGen
  import opened Labels

  /** The label table after some declarations. */
  function Declared(labels: map<Label, nat>, decls: seq<Decl>): map<Label, nat>
    decreases |decls|
  {
    if decls == [] then labels
    else
      var d := decls[|decls| - 1];
      Declared(labels, decls[..|decls| - 1])[d.name := d.at]
  }

  lemma {:induction false} DeclaredCat(labels: map<Label, nat>, a: seq<Decl>, b: seq<Decl>)
    ensures Declared(labels, a + b) == Declared(Declared(labels, a), b)
    decreases |b|
  {
    if b == [] {
      assert a + b == a;
    } else {
      assert (a + b)[..|a + b| - 1] == a + b[..|b| - 1];
      DeclaredCat(labels, a, b[..|b| - 1]);
    }
  }

  /** The names in the table are the old ones and the declared ones. */
  lemma {:induction false} DeclaredKeys(labels: map<Label, nat>, decls: seq<Decl>)
    ensures forall l :: l in Declared(labels, decls) <==> l in labels || exists d :: d in decls && d.name == l
    decreases |decls|
  {
    if decls != [] {
      var rest, d := decls[..|decls| - 1], decls[|decls| - 1];
      DeclaredKeys(labels, rest);
      assert decls == rest + [d];
      forall l ensures l in Declared(labels, decls) <==> l in labels || exists d' :: d' in decls && d'.name == l {
        if l in Declared(labels, decls) && l !in labels && l != d.name {
          var d' :| d' in rest && d'.name == l;
          assert d' in decls;
        }
        if exists d' :: d' in decls && d'.name == l {
          var d' :| d' in decls && d'.name == l;
          assert d' in rest || d' == d;
        }
      }
    }
  }

  /** The contents of an assembler. */
  datatype Listing = Listing(instrs: seq<Instr>, labels: map<Label, nat>, counter: nat)
  {
    function Emit(more: seq<Instr>): Listing {
      Listing(instrs + more, labels, counter)
    }

    function Declare(l: Label): Listing {
      Listing(instrs, labels[l := |instrs|], counter)
    }

    /** The contents once a piece of code has been appended. */
    function After(s: Seg): Listing {
      Listing(instrs + s.code, Declared(labels, s.decls), s.next)
    }
  }

  lemma AfterNothing(l: Listing, ctr: nat)
    ensures l.After(Seg([], [], ctr)) == l.(counter := ctr)
  {}

  lemma AfterCat(l: Listing, a: Seg, b: Seg)
    ensures l.After(a).After(b) == l.After(a.Cat(b))
  {
    DeclaredCat(l.labels, a.decls, b.decls);
  }

  lemma AfterEmit(l: Listing, s: Seg, more: seq<Instr>)
    ensures l.After(s).Emit(more) == l.After(s.Emit(more))
  {
    assert l.instrs + s.code + more == l.instrs + (s.code + more);
  }

  lemma AfterDeclare(l: Listing, s: Seg, name: Label)
    ensures l.After(s).Declare(name) == l.After(s.Declare(name, |l.instrs| + |s.code|))
  {
    var d := Decl(name, |l.instrs| + |s.code|);
    assert (s.decls + [d])[..|s.decls|] == s.decls;
  }

  lemma CatAssoc(a: Seg, b: Seg, c: Seg)
    ensures a.Cat(b).Cat(c) == a.Cat(b.Cat(c))
  {}

  lemma CatNothing(s: Seg, ctr: nat)
    ensures Seg([], [], ctr).Cat(s) == s
    ensures s.next == ctr ==> s.Cat(Seg([], [], ctr)) == s
    ensures s.Emit([]) == s
  {
    assert s.code + [] == s.code;
  }

  /** No label that is still to be generated has been declared. */
  ghost predicate FreshLabels(labels: map<Label, nat>, counter: nat) {
    forall l :: l in labels && l.Generated? ==> l.num < counter
  }

  /** Every label added to the table was generated since. */
  ghost predicate Grown(before: map<Label, nat>, counter: nat, labels: map<Label, nat>) {
    forall l :: l in labels && l !in before ==> l.Generated? && l.num >= counter
  }

  lemma FreshAfter(l: Listing, s: Seg)
    requires FreshLabels(l.labels, l.counter) && l.counter <= s.next && Within(s.decls, l.counter, s.next)
    ensures FreshLabels(l.After(s).labels, s.next) && Grown(l.labels, l.counter, l.After(s).labels)
  {
    DeclaredKeys(l.labels, s.decls);
    forall d | d in s.decls ensures d.name.Generated? && l.counter <= d.name.num < s.next {
      assert Numbered(d, l.counter, s.next);
    }
  }

  class Assembler {
    var instrs: seq<Instr>
    var labels: map<Label, nat>
    var counter: nat
    var entry: Option<Label>

    constructor ()
      ensures State() == Listing([], map[], 0) && entry == None
    {
      instrs, labels, counter, entry := [], map[], 0, None;
    }

    ghost function State(): Listing
      reads this
    {
      Listing(instrs, labels, counter)
    }

    ghost predicate Fresh()
      reads this
    {
      FreshLabels(labels, counter)
    }

    method GenerateLabel(prefix: Prefix) returns (l: Label)
      modifies this`counter
      ensures l == Generated(prefix, old(counter))
      ensures State() == old(State()).(counter := old(counter) + 1)
    {
      l := Generated(prefix, counter);
      counter := counter + 1;
    }

    /** Declares l at the current position; declaring a label twice is an error. */
    method DeclareLabel(l: Label)
      requires l !in labels
      modifies this`labels
      ensures State() == old(State()).Declare(l)
    {
      labels := labels[l := |instrs|];
    }

    method Add(i: Instr)
      modifies this`instrs
      ensures State() == old(State()).Emit([i])
    {
      instrs := instrs + [i];
    }

    method SetEntrypoint(l: Label)
      modifies this`entry
      ensures entry == Some(l)
    {
      entry := Some(l);
    }
  }
}
