// Drop tables: `resolve` walks script blocks through `~proc` references, with
// the visited blocks and the items found kept in two sets that it fills.
module DropTables {
  import opened Options

  /** `dropTokens` of a block: a name, or `~` and the name of another block. */
  datatype Token = Token(value: string, optional: bool)

  /** What the walk reads: tokens per block, item names, and the monster's own drop. */
  datatype Content = Content(blocks: map<string, seq<Token>>, items: set<string>, deathDrop: Option<string>)

  predicate IsCall(t: Token) {
    t.value != "" && t.value[0] == '~'
  }

  function Callee(t: Token): string
    requires IsCall(t)
  {
    "proc:" + t.value[1..]
  }

  const CERT := "cert_"

  function ItemNamed(c: Content, alias: string): Option<string> {
    if alias in c.items then Some(alias)
    else if CERT <= alias && alias[|CERT|..] in c.items then Some(alias[|CERT|..])
    else None
  }

  /** No drop of its own is configured, or an empty one. */
  predicate NoDrop(c: Content) {
    c.deathDrop.None? || c.deathDrop.value == ""
  }

  /** The item that a token names. */
  function Item(c: Content, t: Token): Option<string> {
    if t.value != "npc_param" then ItemNamed(c, t.value)
    else if NoDrop(c) then None
    else ItemNamed(c, c.deathDrop.value)
  }

  /** A token that stops the walk: a required one that names no item, or any
      `npc_param` of a monster without a drop of its own. */
  predicate Bad(c: Content, t: Token) {
    !IsCall(t) && Item(c, t).None? && (!t.optional || (t.value == "npc_param" && NoDrop(c)))
  }

  predicate Calls(c: Content, from: string, to: string) {
    from in c.blocks && exists t :: t in c.blocks[from] && IsCall(t) && Callee(t) == to
  }

  /** The token calls the block: `~name` the block `proc:name`. */
  ghost predicate CallsBlock(t: Token, to: string) {
    exists name: string :: t.value == "~" + name && to == "proc:" + name
  }

  lemma CalleeIff(t: Token, to: string)
    ensures CallsBlock(t, to) <==> IsCall(t) && Callee(t) == to
  {
    if IsCall(t) {
      assert t.value == "~" + t.value[1..];
    }
    if CallsBlock(t, to) {
      var name: string :| t.value == "~" + name && to == "proc:" + name;
      assert t.value[1..] == name;
    }
  }

  /** The name stands for the item: it is one, or it is `cert_` and one. */
  predicate StandsFor(c: Content, name: string, item: string) {
    item in c.items && (name == item || (name !in c.items && name == "cert_" + item))
  }

  /** The token gives the item: its own name, or for `npc_param` the drop that is
      configured. */
  predicate Gives(c: Content, t: Token, item: string) {
    if t.value == "npc_param" then c.deathDrop.Some? && c.deathDrop.value != "" && StandsFor(c, c.deathDrop.value, item)
    else StandsFor(c, t.value, item)
  }

  lemma NamedIff(c: Content, name: string, item: string)
    ensures ItemNamed(c, name) == Some(item) <==> StandsFor(c, name, item)
  {
    if CERT <= name { assert name == CERT + name[|CERT|..]; }
    if name == "cert_" + item { assert name[|CERT|..] == item && name[..|CERT|] == CERT; }
  }

  /** What a token stands for, and when it stops the walk. */
  lemma TokenIff(c: Content, t: Token, item: string)
    ensures Item(c, t) == Some(item) <==> Gives(c, t, item)
    ensures Bad(c, t) <==>
      && (forall name: string :: t.value != "~" + name)
      && (forall x :: !Gives(c, t, x))
      && (!t.optional || (t.value == "npc_param" && (c.deathDrop.None? || c.deathDrop.value == "")))
  {
    NamedIff(c, t.value, item);
    if c.deathDrop.Some? { NamedIff(c, c.deathDrop.value, item); }
    forall x ensures Item(c, t) == Some(x) <==> Gives(c, t, x) {
      NamedIff(c, t.value, x);
      if c.deathDrop.Some? { NamedIff(c, c.deathDrop.value, x); }
    }
    if IsCall(t) { CalleeIff(t, Callee(t)); }
    forall name: string ensures t.value == "~" + name ==> IsCall(t) {
    }
    hide ItemNamed, StandsFor;
  }

  ghost predicate Trail(c: Content, trail: seq<string>) {
    trail != [] && forall k :: 0 < k < |trail| ==> Calls(c, trail[k - 1], trail[k])
  }

  ghost predicate Reaches(c: Content, from: string, to: string) {
    exists trail :: Trail(c, trail) && trail[0] == from && trail[|trail| - 1] == to
  }

  /** The block exists and no token of it stops the walk. */
  predicate Sound(c: Content, key: string) {
    key in c.blocks && forall t :: t in c.blocks[key] ==> !Bad(c, t)
  }

  /** The item is named by one of the tokens. */
  predicate Names(c: Content, tokens: seq<Token>, item: string) {
    exists t :: t in tokens && !IsCall(t) && Item(c, t) == Some(item)
  }

  predicate NamedIn(c: Content, keys: set<string>, item: string) {
    exists key :: key in keys && key in c.blocks && Names(c, c.blocks[key], item)
  }

  /** The blocks of the first set call only into the second. */
  ghost predicate Inward(c: Content, keys: set<string>, seen: set<string>) {
    forall key, to :: key in keys && Calls(c, key, to) ==> to in seen
  }

  lemma ReachesSelf(c: Content, key: string)
    ensures Reaches(c, key, key)
  {
    assert Trail(c, [key]);
  }

  lemma ReachesBefore(c: Content, from: string, mid: string, to: string)
    requires Calls(c, from, mid) && Reaches(c, mid, to)
    ensures Reaches(c, from, to)
  {
    var trail :| Trail(c, trail) && trail[0] == mid && trail[|trail| - 1] == to;
    var longer := [from] + trail;
    assert Trail(c, longer) && longer[0] == from && longer[|longer| - 1] == to;
  }

  /** A set that calls only into itself holds whatever its members reach. */
  lemma {:induction false} TrailInside(c: Content, seen: set<string>, trail: seq<string>)
    requires Trail(c, trail) && trail[0] in seen && Inward(c, seen, seen)
    ensures trail[|trail| - 1] in seen
    decreases |trail|
  {
    if |trail| > 1 {
      assert Calls(c, trail[0], trail[1]);
      assert Trail(c, trail[1..]);
      TrailInside(c, seen, trail[1..]);
    }
  }

  // ---------------------------------------------------------------------
  // What a walk leaves behind
  // ---------------------------------------------------------------------

  /** The new blocks are sound, reached from the key, and the items are theirs and the old ones. */
  ghost predicate Added(c: Content, key: string, added: set<string>, items: set<string>, seen: set<string>,
                        out: set<string>) {
    && added <= seen
    && (forall k :: k in added ==> Sound(c, k) && Reaches(c, key, k))
    && Inward(c, added, seen)
    && (forall x :: x in out <==> x in items || NamedIn(c, added, x))
  }

  /** In the middle of a block: some of its tokens are done. */
  ghost predicate Halfway(c: Content, key: string, added: set<string>, items: set<string>, seen: set<string>,
                          out: set<string>, tokens: seq<Token>, i: nat)
  {
    && i <= |tokens| && added <= seen && key in seen
    && (forall k :: k in added ==> Sound(c, k) && Reaches(c, key, k))
    && Inward(c, added, seen)
    && (forall t :: t in tokens[..i] ==> !Bad(c, t) && (IsCall(t) ==> Callee(t) in seen))
    && (forall x :: x in out <==> x in items || NamedIn(c, added, x) || Names(c, tokens[..i], x))
  }

  lemma NamesNext(c: Content, tokens: seq<Token>, i: nat, x: string)
    requires i < |tokens|
    ensures Names(c, tokens[..i + 1], x)
       <==> Names(c, tokens[..i], x) || (!IsCall(tokens[i]) && Item(c, tokens[i]) == Some(x))
  {
    hide Item, IsCall;
    assert tokens[..i + 1] == tokens[..i] + [tokens[i]];
    if Names(c, tokens[..i], x) {
      var t :| t in tokens[..i] && !IsCall(t) && Item(c, t) == Some(x);
      assert t in tokens[..i + 1];
    }
    assert tokens[i] in tokens[..i + 1];
  }

  lemma NamedInMore(c: Content, a: set<string>, b: set<string>, x: string)
    ensures NamedIn(c, a + b, x) <==> NamedIn(c, a, x) || NamedIn(c, b, x)
  {
    hide Names;
    if NamedIn(c, a, x) {
      var k :| k in a && k in c.blocks && Names(c, c.blocks[k], x);
      assert k in a + b;
    }
    if NamedIn(c, b, x) {
      var k :| k in b && k in c.blocks && Names(c, c.blocks[k], x);
      assert k in a + b;
    }
  }

  /** A token that names an item, or none, is done. */
  lemma HalfwayItem(c: Content, key: string, added: set<string>, items: set<string>, seen: set<string>,
                    out: set<string>, tokens: seq<Token>, i: nat)
    requires Halfway(c, key, added, items, seen, out, tokens, i) && i < |tokens|
    requires !IsCall(tokens[i]) && !Bad(c, tokens[i])
    ensures var item := Item(c, tokens[i]);
      Halfway(c, key, added, items, seen, if item.Some? then out + {item.value} else out, tokens, i + 1)
  {
    hide Item, IsCall, Bad, Sound, Reaches, Inward, NamedIn, Names;
    assert tokens[..i + 1] == tokens[..i] + [tokens[i]];
    forall x { NamesNext(c, tokens, i, x); }
  }

  /** A call is done when the walk of the called block is. */
  lemma HalfwayCall(c: Content, key: string, added: set<string>, items: set<string>, seen: set<string>,
                    out: set<string>, tokens: seq<Token>, i: nat, newer: set<string>, seenAfter: set<string>,
                    outAfter: set<string>)
    requires Halfway(c, key, added, items, seen, out, tokens, i) && i < |tokens|
    requires IsCall(tokens[i]) && Calls(c, key, Callee(tokens[i]))
    requires Added(c, Callee(tokens[i]), newer, out, seenAfter, outAfter)
    requires seen <= seenAfter && Callee(tokens[i]) in seenAfter
    ensures Halfway(c, key, added + newer, items, seenAfter, outAfter, tokens, i + 1)
  {
    CallsAreNotBad(c, tokens[i]);
    hide Item, IsCall, Bad, Sound, Reaches, Calls, Callee, NamedIn, Names;
    assert tokens[..i + 1] == tokens[..i] + [tokens[i]];
    forall x ensures Names(c, tokens[..i + 1], x) <==> Names(c, tokens[..i], x) {
      NamesNext(c, tokens, i, x);
    }
    forall x { NamedInMore(c, added, newer, x); }
    forall k | k in newer ensures Reaches(c, key, k) {
      ReachesBefore(c, key, Callee(tokens[i]), k);
    }
  }

  lemma CallsAreNotBad(c: Content, t: Token)
    requires IsCall(t)
    ensures !Bad(c, t)
  {
  }

  lemma HalfwayDone(c: Content, key: string, added: set<string>, items: set<string>, seen: set<string>,
                    out: set<string>)
    requires key in c.blocks
    requires Halfway(c, key, added, items, seen, out, c.blocks[key], |c.blocks[key]|)
    ensures Added(c, key, added + {key}, items, seen, out)
  {
    hide Item, IsCall, Bad, Reaches, Callee, Names;
    var tokens := c.blocks[key];
    assert tokens[..|tokens|] == tokens;
    ReachesSelf(c, key);
    forall x { NamedInMore(c, added, {key}, x); }
  }

  class Resolver {
    const content: Content
    var seen: set<string>
    var out: set<string>

    constructor (content: Content)
      ensures this.content == content && seen == {} && out == {}
    {
      this.content := content;
      seen, out := {}, {};
    }

    /** `resolve`; false is an error. */
    method Resolve(key: string) returns (ok: bool)
      modifies this
      ensures old(seen) <= seen
      ensures ok ==> key in seen && Added(content, key, seen - old(seen), old(out), seen, out)
      ensures !ok ==> exists k :: Reaches(content, key, k) && !Sound(content, k)
      decreases content.blocks.Keys - seen
    {
      hide Halfway, Added, Reaches, Item, Bad;
      ReachesSelf(content, key);
      if key in seen {
        NothingAdded(content, key, seen, out);
        assert seen - old(seen) == {};
        return true;
      }
      if key !in content.blocks { return false; }
      var tokens := content.blocks[key];
      seen := seen + {key};
      ghost var added := {};
      HalfwayStart(content, key, seen, out, tokens);
      for i := 0 to |tokens|
        invariant old(seen) + {key} <= seen && added == seen - old(seen) - {key}
        invariant Halfway(content, key, added, old(out), seen, out, tokens, i)
      {
        var token := tokens[i];
        ghost var before, items := seen, out;
        assert token in tokens;
        if IsCall(token) {
          assert Calls(content, key, Callee(token));
          var done := Resolve(Callee(token));
          if !done {
            ghost var k :| Reaches(content, Callee(token), k) && !Sound(content, k);
            ReachesBefore(content, key, Callee(token), k);
            return false;
          }
          HalfwayCall(content, key, added, old(out), before, items, tokens, i, seen - before, seen, out);
          added := added + (seen - before);
        } else if Bad(content, token) {
          return false;
        } else {
          HalfwayItem(content, key, added, old(out), seen, out, tokens, i);
          var item := Item(content, token);
          if item.Some? { out := out + {item.value}; }
        }
      }
      HalfwayDone(content, key, added, old(out), seen, out);
      assert seen - old(seen) == added + {key};
      ok := true;
    }
  }

  lemma NothingAdded(c: Content, key: string, seen: set<string>, out: set<string>)
    ensures Added(c, key, {}, out, seen, out)
  {
  }

  lemma HalfwayStart(c: Content, key: string, seen: set<string>, out: set<string>, tokens: seq<Token>)
    requires key in seen
    ensures Halfway(c, key, {}, out, seen, out, tokens, 0)
  {
  }

  // ---------------------------------------------------------------------
  // The whole walk
  // ---------------------------------------------------------------------

  ghost predicate AllSound(c: Content, key: string) {
    forall k :: Reaches(c, key, k) ==> Sound(c, k)
  }

  ghost predicate NamedByReached(c: Content, key: string, item: string) {
    exists k :: Reaches(c, key, k) && k in c.blocks && Names(c, c.blocks[k], item)
  }

  lemma AddedIsReached(c: Content, key: string, seen: set<string>, out: set<string>)
    requires key in seen && Added(c, key, seen, {}, seen, out)
    ensures forall k :: k in seen <==> Reaches(c, key, k)
    ensures AllSound(c, key)
    ensures forall x :: x in out <==> NamedByReached(c, key, x)
  {
    hide Sound, Names;
    forall k | Reaches(c, key, k) ensures k in seen {
      var trail :| Trail(c, trail) && trail[0] == key && trail[|trail| - 1] == k;
      TrailInside(c, seen, trail);
    }
  }

  /** An optional token may name no item, but not as `npc_param` without a death
      drop, or with an empty one. */
  lemma OptionalParamFails(key: string, name: string, drop: Option<string>)
    requires name != "npc_param" && name != "" && name[0] != '~'
    requires drop.None? || drop.value == ""
    ensures !AllSound(Content(map[key := [Token("npc_param", true)]], {}, drop), key)
    ensures AllSound(Content(map[key := [Token(name, true)]], {}, drop), key)
  {
    var bad := Content(map[key := [Token("npc_param", true)]], {}, drop);
    ReachesSelf(bad, key);
    assert "npc_param"[0] == 'n';
    assert Token("npc_param", true) in bad.blocks[key] && Bad(bad, Token("npc_param", true));
    var good := Content(map[key := [Token(name, true)]], {}, drop);
    assert Inward(good, {key}, {key});
    forall k | Reaches(good, key, k) ensures Sound(good, k) {
      var trail :| Trail(good, trail) && trail[0] == key && trail[|trail| - 1] == k;
      TrailInside(good, {key}, trail);
    }
  }

  /** The items of a target's drop table: those named by the blocks it reaches.
      An error iff a reached block is missing or holds a token that stops the walk. */
  method Drops(content: Content, key: string) returns (items: Option<set<string>>)
    ensures items.Some? <==> AllSound(content, key)
    ensures items.Some? ==> forall x :: x in items.value <==> NamedByReached(content, key, x)
  {
    var r := new Resolver(content);
    var ok := r.Resolve(key);
    if !ok { return None; }
    hide Added, AllSound;
    assert r.seen - {} == r.seen;
    AddedIsReached(content, key, r.seen, r.out);
    return Some(r.out);
  }
}
