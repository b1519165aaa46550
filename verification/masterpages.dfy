/**
 * The master-page resolver of the pagination script: it decides which
 * master-page template a newly created page gets, asking the user at most
 * once per side and remembering the answer for the rest of the run.
 *
 * The user's answer to a prompt is an oracle `answer: Prompt -> string`; the
 * prompts actually shown are logged in the resolver so that "at most once
 * per side" can be stated.
 */
module MasterPages {
  import opened Wrappers

  datatype Side = Left | Right

  /** The side's name in title case, as Python's `str.title()` gives it. */
  function SideTitle(s: Side): string
  {
    match s
    case Left => "Left"
    case Right => "Right"
  }

  /** Facing side of a page index: even pages are left, odd pages right.
      Python's `%` floors and Dafny's is Euclidean; for the divisor 2 both
      give 0 or 1 on every integer. */
  function SideOf(page: int): Side
  {
    if page % 2 == 0 then Left else Right
  }

  /** The conventional master name for a side. */
  function Conventional(s: Side): string
  {
    "Normal " + SideTitle(s)
  }

  /** A prompt shown to the user: the side it asks about (`None` when the
      pages do not face) and the name offered as default. */
  datatype Prompt = Prompt(side: Option<Side>, default: string)

  /** The default offered in the prompt: the conventional name of the side
      when the document has it, otherwise the first master. */
  function DefaultMaster(masters: seq<string>, side: Option<Side>): (r: string)
    requires |masters| > 0
    ensures r in masters
    ensures side.None? ==> r == masters[0]
    ensures side.Some? && Conventional(side.value) in masters ==> r == Conventional(side.value)
    ensures side.Some? && Conventional(side.value) !in masters ==> r == masters[0]
  {
    match side
    case None => masters[0]
    case Some(s) => if Conventional(s) in masters then Conventional(s) else masters[0]
  }

  /** What one call of the uncached resolver produced: the chosen name and
      the prompt shown, if any. */
  datatype Choice = Choice(name: string, prompt: Option<Prompt>)

  /** Uncached resolution for one side. With no master at all the source
      fails indexing the first master; that failure is `None`. */
  function GetMasterPage(masters: seq<string>, side: Option<Side>, answer: Prompt -> string): (r: Option<Choice>)
    ensures r.None? <==> |masters| == 0
    ensures |masters| == 1 ==> r == Some(Choice(masters[0], None))
    ensures |masters| > 1 ==>
      && r.Some?
      && r.value.prompt == Some(Prompt(side, DefaultMaster(masters, side)))
      && r.value.name == answer(r.value.prompt.value)
  {
    if |masters| == 1 then
      Some(Choice(masters[0], None))
    else if |masters| == 0 then
      None
    else
      var p := Prompt(side, DefaultMaster(masters, side));
      Some(Choice(answer(p), Some(p)))
  }

  /** The name the uncached resolver gives a side. */
  function Choose(masters: seq<string>, side: Option<Side>, answer: Prompt -> string): string
    requires |masters| > 0
  {
    GetMasterPage(masters, side, answer).value.name
  }

  /** The resolver's memo: one slot for non-facing documents, one per side
      for facing ones. */
  datatype Cache = Cache(master: Option<string>, left: Option<string>, right: Option<string>)

  const EmptyCache: Cache := Cache(None, None, None)

  function Slot(c: Cache, key: Option<Side>): Option<string>
  {
    match key
    case None => c.master
    case Some(Left) => c.left
    case Some(Right) => c.right
  }

  function Fill(c: Cache, key: Option<Side>, name: string): Cache
  {
    match key
    case None => c.(master := Some(name))
    case Some(Left) => c.(left := Some(name))
    case Some(Right) => c.(right := Some(name))
  }

  /** The cache slot a new page uses: the single slot when pages do not
      face, otherwise the side given by the page's parity. */
  function KeyFor(facing: bool, page: int): Option<Side>
  {
    if facing then Some(SideOf(page)) else None
  }

  /** Run-scoped resolver state: the facing mode fixed at construction, the
      memo, and the prompts shown so far. */
  datatype Resolver = Resolver(facing: bool, cache: Cache, prompts: seq<Prompt>)

  function NewResolver(facing: bool): Resolver
  {
    Resolver(facing, EmptyCache, [])
  }

  datatype Resolved = Resolved(name: string, resolver: Resolver)

  /** Cached resolution of the master for a new page. */
  function GetMaster(r: Resolver, page: int, masters: seq<string>, answer: Prompt -> string): (res: Option<Resolved>)
    ensures var key := KeyFor(r.facing, page);
      && (res.None? <==> Slot(r.cache, key).None? && |masters| == 0)
      && (Slot(r.cache, key).Some? ==> res == Some(Resolved(Slot(r.cache, key).value, r)))
      && (res.Some? ==>
            && res.value.resolver.facing == r.facing
            && Slot(res.value.resolver.cache, key) == Some(res.value.name)
            && (Slot(r.cache, key).None? ==> res.value.name == Choose(masters, key, answer))
            && (forall k :: k != key ==> Slot(res.value.resolver.cache, k) == Slot(r.cache, k))
            && (if Slot(r.cache, key).None? && |masters| > 1
                then res.value.resolver.prompts == r.prompts + [Prompt(key, DefaultMaster(masters, key))]
                else res.value.resolver.prompts == r.prompts))
  {
    var key := KeyFor(r.facing, page);
    match Slot(r.cache, key)
    case Some(name) => Some(Resolved(name, r))
    case None =>
      match GetMasterPage(masters, key, answer)
      case None => None
      case Some(c) =>
        var prompts := match c.prompt case None => r.prompts case Some(p) => r.prompts + [p];
        Some(Resolved(c.name, r.(cache := Fill(r.cache, key, c.name), prompts := prompts)))
  }

  /** Number of prompts shown for one cache slot. */
  function Count(ps: seq<Prompt>, key: Option<Side>): nat
  {
    if |ps| == 0 then 0
    else Count(ps[..|ps| - 1], key) + (if ps[|ps| - 1].side == key then 1 else 0)
  }

  /** Invariant of one slot: a prompt was shown for it exactly when it is
      filled and there was a choice to make; a filled slot holds what the
      uncached resolver gives for it, and belongs to the resolver's mode. */
  predicate SlotAccounted(r: Resolver, masters: seq<string>, answer: Prompt -> string, key: Option<Side>)
  {
    && Count(r.prompts, key) == (if Slot(r.cache, key).Some? && |masters| > 1 then 1 else 0)
    && (Slot(r.cache, key).Some? ==>
          && |masters| > 0
          && Slot(r.cache, key).value == Choose(masters, key, answer)
          && (key.None? <==> !r.facing))
  }

  /** Invariant of the resolver over a run. */
  predicate Accounted(r: Resolver, masters: seq<string>, answer: Prompt -> string)
  {
    && SlotAccounted(r, masters, answer, None)
    && SlotAccounted(r, masters, answer, Some(Left))
    && SlotAccounted(r, masters, answer, Some(Right))
    && (forall i :: 0 <= i < |r.prompts| ==>
          |masters| > 1 && r.prompts[i].default == DefaultMaster(masters, r.prompts[i].side))
  }

  lemma {:induction false} CountAppend(ps: seq<Prompt>, p: Prompt, key: Option<Side>)
    ensures Count(ps + [p], key) == Count(ps, key) + (if p.side == key then 1 else 0)
  {
    assert (ps + [p])[..|ps|] == ps;
  }

  /** Every prompt is counted under exactly one slot. */
  lemma {:induction false} CountSplit(ps: seq<Prompt>)
    ensures |ps| == Count(ps, None) + Count(ps, Some(Left)) + Count(ps, Some(Right))
  {
    if |ps| > 0 {
      CountSplit(ps[..|ps| - 1]);
      var s := ps[|ps| - 1].side;
      assert s == None || s == Some(Left) || s == Some(Right) by {
        if s.Some? {
          match s.value
          case Left =>
          case Right =>
        }
      }
    }
  }

  /** A fresh resolver satisfies the run invariant. */
  lemma NewResolverAccounted(facing: bool, masters: seq<string>, answer: Prompt -> string)
    ensures Accounted(NewResolver(facing), masters, answer)
  {
  }

  /** Resolving a page keeps one slot's part of the invariant. */
  lemma GetMasterSlotAccounted(r: Resolver, page: int, masters: seq<string>, answer: Prompt -> string, k: Option<Side>)
    requires SlotAccounted(r, masters, answer, k)
    requires GetMaster(r, page, masters, answer).Some?
    ensures SlotAccounted(GetMaster(r, page, masters, answer).value.resolver, masters, answer, k)
  {
    var key := KeyFor(r.facing, page);
    var r' := GetMaster(r, page, masters, answer).value.resolver;
    if Slot(r.cache, key).Some? {
      assert r' == r;
    } else {
      if |masters| > 1 {
        var p := Prompt(key, DefaultMaster(masters, key));
        assert r'.prompts == r.prompts + [p];
        CountAppend(r.prompts, p, k);
      } else {
        assert r'.prompts == r.prompts;
      }
      if k == key {
        assert Slot(r'.cache, k) == Some(Choose(masters, k, answer));
      } else {
        assert Slot(r'.cache, k) == Slot(r.cache, k);
      }
    }
  }

  /** Resolving a page keeps the run invariant. */
  lemma GetMasterAccounted(r: Resolver, page: int, masters: seq<string>, answer: Prompt -> string)
    requires Accounted(r, masters, answer)
    requires GetMaster(r, page, masters, answer).Some?
    ensures Accounted(GetMaster(r, page, masters, answer).value.resolver, masters, answer)
  {
    GetMasterSlotAccounted(r, page, masters, answer, None);
    GetMasterSlotAccounted(r, page, masters, answer, Some(Left));
    GetMasterSlotAccounted(r, page, masters, answer, Some(Right));
  }

  /** The source's promise on prompting: at most one prompt per run when
      pages do not face, at most two (one per side) when they do, and none
      at all when the document has a single master. */
  lemma {:induction false} PromptBound(r: Resolver, masters: seq<string>, answer: Prompt -> string)
    requires Accounted(r, masters, answer)
    ensures |r.prompts| <= (if r.facing then 2 else 1)
    ensures |masters| <= 1 ==> r.prompts == []
    ensures forall key :: Count(r.prompts, key) <= 1
  {
    CountSplit(r.prompts);
    forall key: Option<Side>
      ensures Count(r.prompts, key) <= 1
    {
      match key
      case None =>
      case Some(Left) =>
      case Some(Right) =>
    }
  }

}
