/**
 * The overflow pagination engine: while the tail frame of a text chain
 * overflows, it adds a page at index `current_page + 1`, puts a
 * margin-fitted text frame on it, gives the frame the head frame's columns
 * and gap, and links the old tail to it. `current_page` starts at the
 * host's current page, which need not be the head frame's page, and is then
 * the last page added.
 *
 * The host document is represented by the edits the engine issues to it
 * (new pages, new frames, links), in order. The layout engine's overflow
 * test is an oracle over the chain's length: `overflows(n)` says whether the
 * tail overflows when the chain has `n` frames, the head included.
 */
module Pagination {
  import opened Wrappers
  import opened Geometry
  import opened MasterPages

  /** What the script does before paginating. */
  datatype Prerequisite =
    | NoDocument       // error box, then the script exits with status 1
    | NoFrameSelected  // warning box, then the script returns
    | Ready

  /** The two checks, in order: an open document first, then a selection. */
  function CheckPrerequisites(haveDoc: bool, selected: string): (r: Prerequisite)
    ensures r == Ready <==> haveDoc && selected != ""
    ensures r == NoDocument <==> !haveDoc
    ensures r == NoFrameSelected <==> haveDoc && selected == ""
  {
    if !haveDoc then NoDocument
    else if selected == "" then NoFrameSelected
    else Ready
  }

  /** The decimal digit character for 0..9. */
  function DigitChar(d: int): char
    requires 0 <= d < 10
  {
    (48 + d) as char
  }

  /** Decimal notation of a natural number, without leading zeros. */
  function Digits(n: nat): (s: string)
  {
    if n < 10 then [DigitChar(n)] else Digits(n / 10) + [DigitChar(n % 10)]
  }

  /** Python's `str` of an integer. */
  function IntToString(i: int): string
  {
    if i < 0 then "-" + Digits(-i) else Digits(i)
  }

  /** The name the engine gives the frame it creates on a page. */
  function FrameName(page: int): string
  {
    "TextFrame_" + IntToString(page)
  }

  lemma {:induction false} DigitsInjective(a: nat, b: nat)
    requires Digits(a) == Digits(b)
    ensures a == b
  {
    if a >= 10 && b >= 10 {
      var da, db := Digits(a), Digits(b);
      assert da[..|da| - 1] == Digits(a / 10);
      assert db[..|db| - 1] == Digits(b / 10);
      DigitsInjective(a / 10, b / 10);
      assert da[|da| - 1] == DigitChar(a % 10);
      assert db[|db| - 1] == DigitChar(b % 10);
    }
  }

  /** Decimal notation starts with a digit. */
  lemma {:induction false} DigitsLead(n: nat)
    ensures '0' <= Digits(n)[0] <= '9'
  {
    if n >= 10 {
      DigitsLead(n / 10);
      assert Digits(n)[0] == Digits(n / 10)[0];
    }
  }

  /** Only negative numbers are written with a leading minus sign. */
  lemma IntToStringSign(i: int)
    ensures |IntToString(i)| > 0 && (IntToString(i)[0] == '-' <==> i < 0)
  {
    if i >= 0 {
      DigitsLead(i);
    }
  }

  /** Distinct pages give distinct frame names. */
  lemma {:induction false} FrameNameInjective(p: int, q: int)
    ensures FrameName(p) == FrameName(q) <==> p == q
  {
    if FrameName(p) == FrameName(q) {
      var sp, sq := IntToString(p), IntToString(q);
      assert sp == FrameName(p)[10..] && sq == FrameName(q)[10..];
      if p < 0 && q < 0 {
        assert Digits(-p) == sp[1..] && Digits(-q) == sq[1..];
        DigitsInjective(-p, -q);
      } else if p >= 0 && q >= 0 {
        DigitsInjective(p, q);
      } else {
        IntToStringSign(p);
        IntToStringSign(q);
      }
    }
  }

  datatype Frame = Frame(name: string, page: int, rect: Rect, columns: int, gap: real)

  /** The frame the engine puts on a new page. The frame spans the page
      between the margins, and its height carries the unit's correction
      (the script's height hack is always on). */
  function PageFrame(g: Page, columns: int, gap: real, pageNum: int): (f: Frame)
    ensures f.name == FrameName(pageNum) && f.page == pageNum
    ensures f.rect.x == g.margins.left && f.rect.y == g.margins.top
    ensures f.rect.x + f.rect.width == g.size.width - g.margins.right
    ensures f.rect.y + f.rect.height == g.size.height - g.margins.bottom + UnitCorrection[g.unit]
    ensures f.columns == columns && f.gap == gap
  {
    var x := g.margins.left;
    var y := g.margins.top;
    var width := g.size.width - g.margins.left - g.margins.right;
    var height := g.size.height - g.margins.top - g.margins.bottom + UnitCorrection[g.unit];
    Frame(FrameName(pageNum), pageNum, Rect(x, y, width, height), columns, gap)
  }

  datatype NewPage = NewPage(index: int, master: string)

  datatype Link = Link(from: string, to: string)

  /** The edits issued to the host document during a run, in order. */
  datatype Edits = Edits(pages: seq<NewPage>, frames: seq<Frame>, links: seq<Link>)

  /** The engine's state: the layout constants read at construction, the
      head frame's columns and gap, the last page index, and the resolver. */
  datatype PageManager = PageManager(page: Page, columns: int, gap: real, currentPage: int, resolver: Resolver)

  function NewPageManager(page: Page, columns: int, gap: real, currentPage: int, facing: bool): PageManager
  {
    PageManager(page, columns, gap, currentPage, NewResolver(facing))
  }

  function CreateTextFrame(m: PageManager, pageNum: int): Frame
  {
    PageFrame(m.page, m.columns, m.gap, pageNum)
  }

  datatype Step = Step(manager: PageManager, edits: Edits, frame: string)

  /** One extension: a page at index `currentPage + 1`, its master resolved
      for that index, a fitted frame on it, linked from `previous`. `None`
      is the failure of resolving a master in a document without any. */
  function AddPageWithFrame(m: PageManager, e: Edits, previous: string, masters: seq<string>, answer: Prompt -> string): (r: Option<Step>)
    ensures var p := m.currentPage + 1;
      && (r.None? <==> GetMaster(m.resolver, p, masters, answer).None?)
      && (r.Some? ==>
            var res := GetMaster(m.resolver, p, masters, answer).value;
            && r.value.manager == m.(currentPage := p, resolver := res.resolver)
            && r.value.frame == FrameName(p)
            && r.value.edits == Edits(e.pages + [NewPage(p, res.name)],
                                      e.frames + [CreateTextFrame(m, p)],
                                      e.links + [Link(previous, FrameName(p))]))
  {
    var p := m.currentPage + 1;
    match GetMaster(m.resolver, p, masters, answer)
    case None => None
    case Some(res) =>
      var frame := CreateTextFrame(m, p);
      Some(Step(m.(currentPage := p, resolver := res.resolver),
                Edits(e.pages + [NewPage(p, res.name)], e.frames + [frame], e.links + [Link(previous, frame.name)]),
                frame.name))
  }

  /** How a run ends: success, or the failure of resolving a master. */
  datatype Outcome =
    | Done(manager: PageManager, edits: Edits, tail: string)
    | Aborted(edits: Edits)

  // A closed-form reference for what a run of `n` extensions has produced,
  // `start` being the host's current page when the run began. The run invariant says the engine's state equals it.

  /** The frames created: one fitted frame per new page. */
  function RunFrames(head: Frame, start: int, g: Page, n: nat): (fs: seq<Frame>)
    ensures |fs| == n
  {
    if n == 0 then [] else RunFrames(head, start, g, n - 1) + [PageFrame(g, head.columns, head.gap, start + n)]
  }

  /** The frame at the end of the chain. */
  function RunTail(head: Frame, start: int, n: nat): string
  {
    if n == 0 then head.name else FrameName(start + n)
  }

  /** The links: each new frame is linked from the chain's previous end. */
  function RunLinks(head: Frame, start: int, n: nat): (ls: seq<Link>)
    ensures |ls| == n
  {
    if n == 0 then [] else RunLinks(head, start, n - 1) + [Link(RunTail(head, start, n - 1), FrameName(start + n))]
  }

  /** The pages: consecutive indices, each with the master chosen for its slot. */
  function RunPages(start: int, facing: bool, masters: seq<string>, answer: Prompt -> string, n: nat): (ps: seq<NewPage>)
    requires n == 0 || |masters| > 0
    ensures |ps| == n
  {
    if n == 0 then []
    else RunPages(start, facing, masters, answer, n - 1) + [NewPage(start + n, Choose(masters, KeyFor(facing, start + n), answer))]
  }

  /** The memo: filled for the slot of the first new page and, in a facing
      document, for the slot of the second one (the other side). */
  function RunCache(start: int, facing: bool, masters: seq<string>, answer: Prompt -> string, n: nat): Cache
  {
    if n == 0 || |masters| == 0 then EmptyCache
    else
      var k1, k2 := KeyFor(facing, start + 1), KeyFor(facing, start + 2);
      var c1 := Fill(EmptyCache, k1, Choose(masters, k1, answer));
      if facing && n >= 2 then Fill(c1, k2, Choose(masters, k2, answer)) else c1
  }

  /** The prompts: one for the first new page's slot and, in a facing
      document, one for the second page's side; none with a single master. */
  function RunPrompts(start: int, facing: bool, masters: seq<string>, n: nat): seq<Prompt>
  {
    if n == 0 || |masters| <= 1 then []
    else
      var k1, k2 := KeyFor(facing, start + 1), KeyFor(facing, start + 2);
      [Prompt(k1, DefaultMaster(masters, k1))] + (if facing && n >= 2 then [Prompt(k2, DefaultMaster(masters, k2))] else [])
  }

  function RunResolver(start: int, facing: bool, masters: seq<string>, answer: Prompt -> string, n: nat): Resolver
  {
    Resolver(facing, RunCache(start, facing, masters, answer, n), RunPrompts(start, facing, masters, n))
  }

  /** The run invariant after `|e.frames|` extensions, `start` being the
      host's current page when the run began. */
  predicate Shaped(head: Frame, start: int, g: Page, facing: bool, masters: seq<string>, answer: Prompt -> string,
                   m: PageManager, e: Edits, tail: string)
  {
    var n := |e.frames|;
    && (|masters| == 0 ==> n == 0)
    && m == PageManager(g, head.columns, head.gap, start + n, RunResolver(start, facing, masters, answer, n))
    && e == Edits(RunPages(start, facing, masters, answer, n), RunFrames(head, start, g, n), RunLinks(head, start, n))
    && tail == RunTail(head, start, n)
  }

  /** Resolving the master of the next page against the reference memo
      gives the reference master and the reference memo one step on; it
      fails only in a document without masters. */
  lemma {:induction false} ResolverStep(start: int, facing: bool, masters: seq<string>, answer: Prompt -> string, n: nat)
    requires n == 0 || |masters| > 0
    ensures var r := GetMaster(RunResolver(start, facing, masters, answer, n), start + n + 1, masters, answer);
      && (r.None? <==> |masters| == 0)
      && (r.Some? ==> r == Some(Resolved(Choose(masters, KeyFor(facing, start + n + 1), answer),
                                         RunResolver(start, facing, masters, answer, n + 1))))
  {
    var r0 := RunResolver(start, facing, masters, answer, n);
    var key := KeyFor(facing, start + n + 1);
    if n == 0 {
      assert key == KeyFor(facing, start + 1);
      var res := GetMaster(r0, start + n + 1, masters, answer);
      if |masters| > 0 {
        assert res.Some?;
        assert res.value.resolver.cache == RunCache(start, facing, masters, answer, 1);
        assert res.value.resolver.prompts == RunPrompts(start, facing, masters, 1);
      }
    } else if |masters| > 0 {
      if !facing {
        assert key == None;
      } else if n >= 2 {
        assert key == KeyFor(facing, start + 1) || key == KeyFor(facing, start + 2);
      } else {
        var k1 := KeyFor(facing, start + 1);
        assert k1 != key;
        assert key == KeyFor(facing, start + 2);
        var c1 := Fill(EmptyCache, k1, Choose(masters, k1, answer));
        assert r0.cache == c1;
        assert Slot(c1, key).None?;
        var c2 := Fill(c1, key, Choose(masters, key, answer));
        assert RunResolver(start, facing, masters, answer, n + 1).cache == c2;
        var res := GetMaster(r0, start + n + 1, masters, answer);
        assert res.Some?;
        assert res.value.resolver.cache == c2;
        assert res.value.resolver.prompts == RunPrompts(start, facing, masters, n + 1);
      }
    }
  }

  /** One extension keeps the run invariant. */
  lemma {:induction false} ShapedStep(head: Frame, start: int, g: Page, facing: bool, masters: seq<string>, answer: Prompt -> string,
                                      m: PageManager, e: Edits, tail: string)
    requires Shaped(head, start, g, facing, masters, answer, m, e, tail)
    ensures var r := AddPageWithFrame(m, e, tail, masters, answer);
      && (r.None? <==> |masters| == 0)
      && (r.Some? ==>
            && |r.value.edits.frames| == |e.frames| + 1
            && Shaped(head, start, g, facing, masters, answer, r.value.manager, r.value.edits, r.value.frame))
  {
    ResolverStep(start, facing, masters, answer, |e.frames|);
  }

  /** The loop of the source: check the tail, extend while it overflows.
      It stops at the first chain length whose tail does not overflow. */
  function Flow(m: PageManager, e: Edits, tail: string, masters: seq<string>, answer: Prompt -> string,
                overflows: nat -> bool, limit: nat): (o: Outcome)
    requires 1 + |e.frames| <= limit && !overflows(limit)
    requires forall j :: 1 <= j <= |e.frames| ==> overflows(j)
    ensures o.Done? ==> !overflows(1 + |o.edits.frames|)
    ensures o.Done? ==> forall j :: 1 <= j <= |o.edits.frames| ==> overflows(j)
    ensures o.Aborted? ==> overflows(1 + |o.edits.frames|)
    decreases limit - |e.frames|
  {
    if !overflows(1 + |e.frames|) then
      Done(m, e, tail)
    else
      match AddPageWithFrame(m, e, tail, masters, answer)
      case None => Aborted(e)
      case Some(s) =>
        assert forall j :: 1 <= j <= |s.edits.frames| ==> overflows(j) by {
          forall j | 1 <= j <= |s.edits.frames|
            ensures overflows(j)
          {
            if j == 1 + |e.frames| {
            }
          }
        }
        Flow(s.manager, s.edits, s.frame, masters, answer, overflows, limit)
  }

  /** The loop keeps the run invariant, and fails exactly when the document
      has no master and the tail overflows, before any edit of its own. */
  lemma {:induction false} FlowShaped(head: Frame, start: int, g: Page, facing: bool, masters: seq<string>, answer: Prompt -> string,
                                      m: PageManager, e: Edits, tail: string, overflows: nat -> bool, limit: nat)
    requires Shaped(head, start, g, facing, masters, answer, m, e, tail)
    requires 1 + |e.frames| <= limit && !overflows(limit)
    requires forall j :: 1 <= j <= |e.frames| ==> overflows(j)
    ensures var o := Flow(m, e, tail, masters, answer, overflows, limit);
      && (o.Done? ==> Shaped(head, start, g, facing, masters, answer, o.manager, o.edits, o.tail))
      && (o.Aborted? <==> |masters| == 0 && overflows(1 + |e.frames|))
      && (o.Aborted? ==> o.edits == e)
    decreases limit - |e.frames|
  {
    if overflows(1 + |e.frames|) {
      ShapedStep(head, start, g, facing, masters, answer, m, e, tail);
      var r := AddPageWithFrame(m, e, tail, masters, answer);
      if r.Some? {
        var s := r.value;
        assert 1 + |e.frames| != limit;
        assert forall j :: 1 <= j <= |s.edits.frames| ==> overflows(j) by {
          forall j | 1 <= j <= |s.edits.frames|
            ensures overflows(j)
          {
            if j == 1 + |e.frames| {
            }
          }
        }
        FlowShaped(head, start, g, facing, masters, answer, s.manager, s.edits, s.frame, overflows, limit);
      }
    }
  }

  /** The whole run from the selected frame `head`, with `start` the host's
      current page: the columns and gap are read from the head once, then
      the loop runs. It
      terminates because the oracle reports no overflow once the chain has
      `limit` frames. On success the edits are the reference ones for the
      number of overflowing checks, which is exactly the number of new
      frames. */
  function ManageTextOverflow(head: Frame, g: Page, start: int, facing: bool, masters: seq<string>,
                              answer: Prompt -> string, overflows: nat -> bool, limit: nat): (o: Outcome)
    requires 1 <= limit && !overflows(limit)
    ensures o.Done? ==> Shaped(head, start, g, facing, masters, answer, o.manager, o.edits, o.tail)
    ensures o.Done? ==> !overflows(1 + |o.edits.frames|)
    ensures o.Done? ==> forall j :: 1 <= j <= |o.edits.frames| ==> overflows(j)
    ensures o.Aborted? <==> |masters| == 0 && overflows(1)
    ensures o.Aborted? ==> o.edits == Edits([], [], [])
  {
    var m := NewPageManager(g, head.columns, head.gap, start, facing);
    FlowShaped(head, start, g, facing, masters, answer, m, Edits([], [], []), head.name, overflows, limit);
    Flow(m, Edits([], [], []), head.name, masters, answer, overflows, limit)
  }

  lemma {:induction false} RunFrameAt(head: Frame, start: int, g: Page, n: nat, i: nat)
    requires i < n
    ensures RunFrames(head, start, g, n)[i] == PageFrame(g, head.columns, head.gap, start + 1 + i)
  {
    var fs, prev := RunFrames(head, start, g, n), RunFrames(head, start, g, n - 1);
    assert fs == prev + [PageFrame(g, head.columns, head.gap, start + n)];
    if i < n - 1 {
      RunFrameAt(head, start, g, n - 1, i);
      assert fs[i] == prev[i];
    } else {
      assert i == n - 1 && start + 1 + i == start + n;
    }
  }

  /** Created frames: the i-th sits on page `start + 1 + i`, is fitted to
      the margins, and carries the head's columns and gap. */
  lemma RunFramesAt(head: Frame, start: int, g: Page, n: nat)
    ensures forall i :: 0 <= i < n ==> RunFrames(head, start, g, n)[i] == PageFrame(g, head.columns, head.gap, start + 1 + i)
  {
    forall i | 0 <= i < n
      ensures RunFrames(head, start, g, n)[i] == PageFrame(g, head.columns, head.gap, start + 1 + i)
    {
      RunFrameAt(head, start, g, n, i);
    }
  }

  lemma {:induction false} RunPageAt(start: int, facing: bool, masters: seq<string>, answer: Prompt -> string, n: nat, i: nat)
    requires |masters| > 0 && i < n
    ensures RunPages(start, facing, masters, answer, n)[i] == NewPage(start + 1 + i, Choose(masters, KeyFor(facing, start + 1 + i), answer))
  {
    var ps, prev := RunPages(start, facing, masters, answer, n), RunPages(start, facing, masters, answer, n - 1);
    assert ps == prev + [NewPage(start + n, Choose(masters, KeyFor(facing, start + n), answer))];
    if i < n - 1 {
      RunPageAt(start, facing, masters, answer, n - 1, i);
      assert ps[i] == prev[i];
    } else {
      assert i == n - 1 && start + 1 + i == start + n;
    }
  }

  /** Created pages: the i-th has index `start + 1 + i` and the master the
      uncached resolver gives its slot, so pages on the same side share a
      master. */
  lemma RunPagesAt(start: int, facing: bool, masters: seq<string>, answer: Prompt -> string, n: nat)
    requires n == 0 || |masters| > 0
    ensures forall i :: 0 <= i < n ==>
      RunPages(start, facing, masters, answer, n)[i] == NewPage(start + 1 + i, Choose(masters, KeyFor(facing, start + 1 + i), answer))
  {
    forall i | 0 <= i < n
      ensures RunPages(start, facing, masters, answer, n)[i] == NewPage(start + 1 + i, Choose(masters, KeyFor(facing, start + 1 + i), answer))
    {
      RunPageAt(start, facing, masters, answer, n, i);
    }
  }

  lemma {:induction false} RunLinkAt(head: Frame, start: int, n: nat, i: nat)
    requires i < n
    ensures RunLinks(head, start, n)[i] == Link(RunTail(head, start, i), FrameName(start + 1 + i))
  {
    var ls, prev := RunLinks(head, start, n), RunLinks(head, start, n - 1);
    assert ls == prev + [Link(RunTail(head, start, n - 1), FrameName(start + n))];
    if i < n - 1 {
      RunLinkAt(head, start, n - 1, i);
      assert ls[i] == prev[i];
    } else {
      assert i == n - 1 && start + 1 + i == start + n;
    }
  }

  /** Created links: the first leaves the head, the i-th leaves the frame
      of page `start + i`, and the i-th enters the frame of page
      `start + 1 + i`. */
  lemma RunLinksAt(head: Frame, start: int, n: nat)
    ensures forall i :: 0 <= i < n ==>
      RunLinks(head, start, n)[i] == Link(if i == 0 then head.name else FrameName(start + i), FrameName(start + 1 + i))
  {
    forall i | 0 <= i < n
      ensures RunLinks(head, start, n)[i] == Link(if i == 0 then head.name else FrameName(start + i), FrameName(start + 1 + i))
    {
      RunLinkAt(head, start, n, i);
    }
  }

  /** The frames of the chain in order: the head, then one per new page. */
  function Chain(head: Frame, start: int, n: nat): (ts: seq<string>)
    ensures |ts| == n + 1
  {
    if n == 0 then [head.name] else Chain(head, start, n - 1) + [FrameName(start + n)]
  }

  lemma {:induction false} ChainAt(head: Frame, start: int, n: nat, i: nat)
    requires i <= n
    ensures Chain(head, start, n)[i] == RunTail(head, start, i)
  {
    if i < n {
      ChainAt(head, start, n - 1, i);
      assert Chain(head, start, n)[i] == Chain(head, start, n - 1)[i];
    }
  }

  /** The chain's frames have distinct names when the head is not named
      like a generated frame. */
  lemma ChainDistinct(head: Frame, start: int, n: nat)
    requires forall p :: start < p <= start + n ==> head.name != FrameName(p)
    ensures var ts := Chain(head, start, n);
      forall a, b :: 0 <= a < b <= n ==> ts[a] != ts[b]
  {
    forall a, b | 0 <= a < b <= n
      ensures Chain(head, start, n)[a] != Chain(head, start, n)[b]
    {
      ChainAt(head, start, n, a);
      ChainAt(head, start, n, b);
      if a > 0 {
        FrameNameInjective(start + a, start + b);
      }
    }
  }

  /** Each link goes from one frame of the chain to the next. */
  lemma RunLinksAlongChain(head: Frame, start: int, n: nat)
    ensures var ls, ts := RunLinks(head, start, n), Chain(head, start, n);
      forall i :: 0 <= i < n ==> ls[i] == Link(ts[i], ts[i + 1])
  {
    forall i | 0 <= i < n
      ensures RunLinks(head, start, n)[i] == Link(Chain(head, start, n)[i], Chain(head, start, n)[i + 1])
    {
      RunLinkAt(head, start, n, i);
      ChainAt(head, start, n, i);
      ChainAt(head, start, n, i + 1);
    }
  }

  /** Links between consecutive elements of a sequence of distinct names
      form a simple path starting at its first name. */
  lemma PathOfDistinct(ts: seq<string>, ls: seq<Link>)
    requires |ts| == |ls| + 1
    requires forall i {:trigger ls[i]} :: 0 <= i < |ls| ==> ls[i] == Link(ts[i], ts[i + 1])
    requires forall a, b :: 0 <= a < b < |ts| ==> ts[a] != ts[b]
    ensures forall i, j :: 0 <= i < |ls| && 0 <= j < |ls| && ls[i].from == ls[j].from ==> i == j
    ensures forall i, j :: 0 <= i < |ls| && 0 <= j < |ls| && ls[i].to == ls[j].to ==> i == j
    ensures forall i :: 0 <= i < |ls| ==> ls[i].to != ts[0]
    ensures forall i, j :: 0 <= i < |ls| && 0 <= j < |ls| && ls[j].from == ls[i].to ==> j == i + 1
  {
    forall i, j | 0 <= i < |ls| && 0 <= j < |ls| && ls[i].from == ls[j].from
      ensures i == j
    {
      assert ls[i].from == ts[i] && ls[j].from == ts[j];
    }
    forall i, j | 0 <= i < |ls| && 0 <= j < |ls| && ls[i].to == ls[j].to
      ensures i == j
    {
      assert ls[i].to == ts[i + 1] && ls[j].to == ts[j + 1];
    }
    forall i | 0 <= i < |ls|
      ensures ls[i].to != ts[0]
    {
      assert ls[i].to == ts[i + 1];
    }
    forall i, j | 0 <= i < |ls| && 0 <= j < |ls| && ls[j].from == ls[i].to
      ensures j == i + 1
    {
      assert ls[j].from == ts[j] && ls[i].to == ts[i + 1];
    }
  }

  /** The links form a simple path from the head through the new frames. */
  lemma ChainPath(head: Frame, start: int, n: nat)
    requires forall p :: start < p <= start + n ==> head.name != FrameName(p)
    ensures var ls := RunLinks(head, start, n);
      && (forall i, j :: 0 <= i < n && 0 <= j < n && ls[i].from == ls[j].from ==> i == j)
      && (forall i, j :: 0 <= i < n && 0 <= j < n && ls[i].to == ls[j].to ==> i == j)
      && (forall i :: 0 <= i < n ==> ls[i].to != head.name)
      && (forall i, j :: 0 <= i < n && 0 <= j < n && ls[j].from == ls[i].to ==> j == i + 1)
  {
    RunLinksAlongChain(head, start, n);
    ChainDistinct(head, start, n);
    assert Chain(head, start, n)[0] == head.name by {
      ChainAt(head, start, n, 0);
    }
    PathOfDistinct(Chain(head, start, n), RunLinks(head, start, n));
  }

  /** Every frame of the chain has at most one successor: no two links
      leave the same frame. Needs the head's name to differ from the
      generated names. */
  lemma OneSuccessor(head: Frame, start: int, n: nat)
    requires forall p :: start < p <= start + n ==> head.name != FrameName(p)
    ensures var ls := RunLinks(head, start, n);
      forall i, j :: 0 <= i < n && 0 <= j < n && ls[i].from == ls[j].from ==> i == j
  {
    ChainPath(head, start, n);
  }

  /** Every frame has at most one predecessor, and nothing links back to
      the head. */
  lemma OnePredecessor(head: Frame, start: int, n: nat)
    requires forall p :: start < p <= start + n ==> head.name != FrameName(p)
    ensures var ls := RunLinks(head, start, n);
      && (forall i, j :: 0 <= i < n && 0 <= j < n && ls[i].to == ls[j].to ==> i == j)
      && (forall i :: 0 <= i < n ==> ls[i].to != head.name)
  {
    ChainPath(head, start, n);
  }

  /** The link leaving a frame is the one right after the link entering
      it, so following links from the head visits the created frames in
      page order. */
  lemma LinksInOrder(head: Frame, start: int, n: nat)
    requires forall p :: start < p <= start + n ==> head.name != FrameName(p)
    ensures var ls := RunLinks(head, start, n);
      forall i, j :: 0 <= i < n && 0 <= j < n && ls[j].from == ls[i].to ==> j == i + 1
  {
    ChainPath(head, start, n);
  }

  /** In a facing document consecutive new pages alternate sides. */
  lemma ConsecutivePagesAlternate(p: int)
    ensures SideOf(p) != SideOf(p + 1)
  {
  }

  /** The memo slot of a run: filled with the uncached choice for the first
      new page's slot and, in a facing document, the second page's slot. */
  lemma RunSlot(start: int, facing: bool, masters: seq<string>, answer: Prompt -> string, n: nat, k: Option<Side>)
    ensures var k1, k2 := KeyFor(facing, start + 1), KeyFor(facing, start + 2);
      Slot(RunCache(start, facing, masters, answer, n), k)
        == if n >= 1 && |masters| > 0 && (k == k1 || (facing && n >= 2 && k == k2))
           then Some(Choose(masters, k, answer)) else None
  {
    var k1, k2 := KeyFor(facing, start + 1), KeyFor(facing, start + 2);
    if facing {
      assert k1 != k2;
    }
  }

  /** The prompts of a run per slot: one for each filled slot when there is
      a choice to make. */
  lemma RunCount(start: int, facing: bool, masters: seq<string>, n: nat, k: Option<Side>)
    ensures var k1, k2 := KeyFor(facing, start + 1), KeyFor(facing, start + 2);
      Count(RunPrompts(start, facing, masters, n), k)
        == (if n >= 1 && |masters| > 1 && k == k1 then 1 else 0)
         + (if facing && n >= 2 && |masters| > 1 && k == k2 then 1 else 0)
  {
    if n >= 1 && |masters| > 1 {
      var k1, k2 := KeyFor(facing, start + 1), KeyFor(facing, start + 2);
      var p1 := Prompt(k1, DefaultMaster(masters, k1));
      assert [p1] == [] + [p1];
      CountAppend([], p1, k);
      if facing && n >= 2 {
        var p2 := Prompt(k2, DefaultMaster(masters, k2));
        assert RunPrompts(start, facing, masters, n) == [p1] + [p2];
        CountAppend([p1], p2, k);
      }
    }
  }

  /** Each slot of the reference memo satisfies the resolver's invariant. */
  lemma RunSlotAccounted(start: int, facing: bool, masters: seq<string>, answer: Prompt -> string, n: nat, k: Option<Side>)
    requires k.None? <==> !facing
    ensures SlotAccounted(RunResolver(start, facing, masters, answer, n), masters, answer, k)
  {
    RunSlot(start, facing, masters, answer, n, k);
    RunCount(start, facing, masters, n, k);
    if facing {
      assert KeyFor(facing, start + 1) != KeyFor(facing, start + 2);
    }
  }

  /** Prompting over a run: at most one prompt when pages do not face, at
      most two when they do and then for opposite sides, none with a single
      master; the reference memo satisfies the resolver's own invariant. */
  lemma {:induction false} RunPromptsBound(start: int, facing: bool, masters: seq<string>, answer: Prompt -> string, n: nat)
    ensures var ps := RunPrompts(start, facing, masters, n);
      && |ps| <= (if facing then 2 else 1)
      && (|masters| <= 1 ==> ps == [])
      && (|ps| == 2 ==> ps[0].side != ps[1].side)
      && Accounted(RunResolver(start, facing, masters, answer, n), masters, answer)
  {
    var r := RunResolver(start, facing, masters, answer, n);
    if facing {
      assert KeyFor(facing, start + 1) != KeyFor(facing, start + 2);
      RunSlotAccounted(start, facing, masters, answer, n, Some(Left));
      RunSlotAccounted(start, facing, masters, answer, n, Some(Right));
      RunSlot(start, facing, masters, answer, n, None);
      RunCount(start, facing, masters, n, None);
    } else {
      RunSlotAccounted(start, facing, masters, answer, n, None);
      RunSlot(start, facing, masters, answer, n, Some(Left));
      RunSlot(start, facing, masters, answer, n, Some(Right));
      RunCount(start, facing, masters, n, Some(Left));
      RunCount(start, facing, masters, n, Some(Right));
    }
    assert SlotAccounted(r, masters, answer, None);
    assert SlotAccounted(r, masters, answer, Some(Left));
    assert SlotAccounted(r, masters, answer, Some(Right));
  }

  /** A single-master, non-facing document whose tail overflows for chains
      of one and two frames and fits at three: two pages and frames are
      added, the chain has three frames, and nobody is asked for a master. */
  lemma ScenarioSingleMaster(head: Frame, g: Page, start: int, master: string, answer: Prompt -> string)
    ensures var o := ManageTextOverflow(head, g, start, false, [master], answer, n => n < 3, 3);
      && o.Done?
      && |o.edits.frames| == 2
      && o.edits.pages == [NewPage(start + 1, master), NewPage(start + 2, master)]
      && o.manager.resolver.prompts == []
  {
    var o := ManageTextOverflow(head, g, start, false, [master], answer, n => n < 3, 3);
    assert |o.edits.frames| == 2;
    RunPagesAt(start, false, [master], answer, 2);
  }

  /** A facing document with several masters, current page 4, with one
      page of overflow: one page is added at index 5, it is a right page,
      and the user is asked once, for the right side. */
  lemma ScenarioFacingOnePage(head: Frame, g: Page, masters: seq<string>, answer: Prompt -> string)
    requires |masters| > 1
    ensures var o := ManageTextOverflow(head, g, 4, true, masters, answer, n => n < 2, 2);
      && o.Done?
      && o.edits.pages == [NewPage(5, Choose(masters, Some(Right), answer))]
      && o.manager.resolver.prompts == [Prompt(Some(Right), DefaultMaster(masters, Some(Right)))]
  {
    var o := ManageTextOverflow(head, g, 4, true, masters, answer, n => n < 2, 2);
    assert |o.edits.frames| == 1;
    assert SideOf(5) == Right;
  }

}
