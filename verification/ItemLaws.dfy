/** What the items that nest others mean for the items inside them. */
module ItemLaws {
  import opened JsonDocument
  import opened SpecIdempotence
  import opened SpecItems
  import opened Wrappers

  /** A custom error changes nothing but the status of a failure. */
  lemma CustomErrorLaw(w: Item, status: Status, key: string, v: View)
    requires IsRequirement(w) || IsModifier(w)
    ensures var plain := RunProcessors([w], key, v);
      RunProcessors([WithCustomError(w, status)], key, v)
      == if plain.0.Ok? then plain else (Fail(status), plain.1)
  {
    RunOne(w, key, v);
    RunOne(WithCustomError(w, status), key, v);
    if IsRequirement(w) {
      VerifiedAsIs(w, key, v);
    }
  }

  lemma VerifiedAsIs(w: Item, key: string, v: View)
    requires IsRequirement(w)
    ensures CallIfProcessor(w, key, v) == (Verify(w, key, v), v)
  {
  }

  ghost predicate AllRequire(items: seq<Item>) {
    forall i :: 0 <= i < |items| ==> IsRequirement(items[i])
  }

  ghost predicate AllModify(items: seq<Item>) {
    forall i :: 0 <= i < |items| ==> IsModifier(items[i]) && !IsRequirement(items[i])
  }

  /** On its own server a conditional runs the items inside it, on the other nothing. */
  lemma ConditionalLaw(active: bool, inners: seq<Item>, key: string, v: View)
    requires inners != [] && (AllRequire(inners) || AllModify(inners))
    ensures RunProcessors([ServerConditional(active, inners)], key, v)
         == if active then RunProcessors(inners, key, v) else (Ok, v)
  {
    RunOne(ServerConditional(active, inners), key, v);
    if AllRequire(inners) {
      assert IsRequirement(inners[0]);
      RequirementsRun(inners, key, v);
    } else {
      assert IsModifier(inners[0]);
      ModifiersRun(inners, key, v);
    }
  }

  lemma {:induction false} RequirementsRun(items: seq<Item>, key: string, v: View)
    requires AllRequire(items)
    ensures RunProcessors(items, key, v) == (VerifyAll(items, key, v), v)
  {
    if items != [] {
      assert IsRequirement(items[0]);
      assert AllRequire(items[1..]);
      RequirementsRun(items[1..], key, v);
    }
  }

  lemma {:induction false} ModifiersRun(items: seq<Item>, key: string, v: View)
    requires AllModify(items)
    ensures RunProcessors(items, key, v) == ApplyAll(items, key, v)
  {
    if items != [] {
      assert IsModifier(items[0]) && !IsRequirement(items[0]);
      assert AllModify(items[1..]);
      ModifiersRun(items[1..], key, Apply(items[0], key, v).1);
    }
  }

  /** A conditional that holds any requirement is run as one: the modifiers beside it never write. */
  lemma MixedConditional(active: bool, inners: seq<Item>, key: string, v: View, i: nat)
    requires i < |inners| && IsRequirement(inners[i])
    ensures RunProcessors([ServerConditional(active, inners)], key, v).1 == v
  {
    RunOne(ServerConditional(active, inners), key, v);
  }

  /** A type branch runs its items on a value of its type, and passes any other and an absent one. */
  lemma TypeBranchLaw(tag: Tag, items: seq<Item>, key: string, v: View)
    ensures RunProcessors([IfType(tag, items)], key, v)
         == if v.Some? && Is(tag, v.value) then RunProcessors(items, key, v) else (Ok, v)
  {
    RunOne(IfType(tag, items), key, v);
  }

  /** Items that neither verify nor modify pass every value. */
  lemma SilentItems(item: Item, key: string, v: View)
    requires item.Check? || item.IfAbsent? || item.Never? || item.Default?
    ensures RunProcessors([item], key, v) == (Ok, v)
  {
    RunOne(item, key, v);
  }
}
