/**
 * The metadata update script: after checking that the mandatory keys are
 * present, it writes each metadata value into the text frame named like
 * its key and re-applies a style to that frame, trying `<lang>--<key>`,
 * then `<key>`, then the frame's current style, keeping the first one the
 * host accepts.
 *
 * The metadata is an ordered sequence of (key, value) pairs with distinct
 * keys, the values already converted to strings. Whether the host accepts
 * a style for a frame is an oracle `accepts(kind, style, frame)`.
 */
module Metadata {
  import opened Wrappers

  /** Keys that must be present. */
  const MandatoryKeys: set<string> := {"title", "date", "series"}

  /** Keys whose frames get a character style rather than a paragraph style. */
  const CharacterStyleKeys: set<string> := {"date", "series"}

  datatype StyleKind = Character | Paragraph

  /** The kind of style a key's frame gets. */
  function KindOf(key: string): (k: StyleKind)
    ensures k == Character <==> key == "date" || key == "series"
  {
    if key in CharacterStyleKeys then Character else Paragraph
  }

  /** The host's default style name of each kind. */
  function DefaultStyle(kind: StyleKind): string
  {
    match kind
    case Character => "Default Character Style"
    case Paragraph => "Default Paragraph Style"
  }

  /** The parts of a text frame the script reads and writes. */
  datatype TextFrame = TextFrame(text: string, characterStyle: string, paragraphStyle: string)

  function StyleOf(f: TextFrame, kind: StyleKind): string
  {
    match kind
    case Character => f.characterStyle
    case Paragraph => f.paragraphStyle
  }

  function WithStyle(f: TextFrame, kind: StyleKind, style: string): TextFrame
  {
    match kind
    case Character => f.(characterStyle := style)
    case Paragraph => f.(paragraphStyle := style)
  }

  function Other(kind: StyleKind): StyleKind
  {
    match kind
    case Character => Paragraph
    case Paragraph => Character
  }

  /** The host document: its text frames by name and the style names it
      defines of each kind. */
  datatype Document = Document(frames: map<string, TextFrame>, characterStyles: set<string>, paragraphStyles: set<string>)

  function Available(doc: Document, kind: StyleKind): set<string>
  {
    match kind
    case Character => doc.characterStyles
    case Paragraph => doc.paragraphStyles
  }

  type Entry = (string, string)

  /** The keys of a mapping are distinct. */
  predicate DistinctKeys(md: seq<Entry>)
  {
    forall i, j :: 0 <= i < j < |md| ==> md[i].0 != md[j].0
  }

  function Keys(md: seq<Entry>): set<string>
  {
    set i | 0 <= i < |md| :: md[i].0
  }

  /** The value stored under a key. */
  function Lookup(md: seq<Entry>, key: string): (r: Option<string>)
    ensures r.Some? <==> key in Keys(md)
    ensures r.Some? ==> exists i :: 0 <= i < |md| && md[i] == (key, r.value)
  {
    if |md| == 0 then None
    else if md[0].0 == key then Some(md[0].1)
    else
      var r := Lookup(md[1..], key);
      assert Keys(md) == {md[0].0} + Keys(md[1..]) by {
        assert forall i :: 0 <= i < |md| - 1 ==> md[1..][i] == md[i + 1];
      }
      assert r.Some? ==> exists i :: 0 <= i < |md| && md[i] == (key, r.value) by {
        if r.Some? {
          var i :| 0 <= i < |md[1..]| && md[1..][i] == (key, r.value);
          assert md[i + 1] == (key, r.value);
        }
      }
      r
  }

  /** The style a frame currently has, or the default of its kind when it
      has none. */
  function CurrentStyle(f: TextFrame, kind: StyleKind): (s: string)
    ensures s != ""
    ensures StyleOf(f, kind) != "" ==> s == StyleOf(f, kind)
    ensures StyleOf(f, kind) == "" ==> s == DefaultStyle(kind)
  {
    if StyleOf(f, kind) != "" then StyleOf(f, kind) else DefaultStyle(kind)
  }

  /** The style names tried for a key, most specific first: the
      language-prefixed name when a non-empty language is set, then the key. */
  function Candidates(lang: Option<string>, key: string): (c: seq<string>)
    ensures 1 <= |c| <= 2 && c[|c| - 1] == key
    ensures |c| == 2 <==> lang.Some? && lang.value != ""
    ensures |c| == 2 ==> c[0] == lang.value + "--" + key
    ensures |c| == 2 ==> c[0] != c[1]
  {
    (if lang.Some? && lang.value != "" then [lang.value + "--" + key] else []) + [key]
  }

  /** `a` is `b` with some elements left out, order kept. */
  ghost predicate Subsequence(a: seq<string>, b: seq<string>)
    decreases |b|
  {
    if |a| == 0 then true
    else if |b| == 0 then false
    else if a[0] == b[0] then Subsequence(a[1..], b[1..])
    else Subsequence(a, b[1..])
  }

  /** The candidates the document defines, in their order. */
  function Filter(cands: seq<string>, available: set<string>): (v: seq<string>)
    ensures forall s :: s in v <==> s in cands && s in available
    ensures forall s :: multiset(v)[s] == if s in available then multiset(cands)[s] else 0
    ensures Subsequence(v, cands)
  {
    if |cands| == 0 then []
    else
      var rest := Filter(cands[1..], available);
      assert forall s :: s in cands <==> s == cands[0] || s in cands[1..];
      assert cands == [cands[0]] + cands[1..];
      if cands[0] in available then [cands[0]] + rest else rest
  }

  /** The styles to try: the available candidates, then the current style
      as the last fallback. */
  function ValidStyles(cands: seq<string>, available: set<string>, current: string): (v: seq<string>)
    ensures |v| >= 1 && v[|v| - 1] == current
    ensures forall s :: s in v[..|v| - 1] <==> s in cands && s in available
    ensures forall s :: multiset(v[..|v| - 1])[s] == if s in available then multiset(cands)[s] else 0
    ensures Subsequence(v[..|v| - 1], cands)
  {
    var v := Filter(cands, available) + [current];
    assert v[..|v| - 1] == Filter(cands, available);
    v
  }

  /** The styles tried and the one applied, if any. */
  datatype Attempts = Attempts(tried: seq<string>, applied: Option<string>)

  /** Tries the styles in order and stops at the first the host accepts. */
  function FirstAccepted(valid: seq<string>, accepts: string -> bool): (a: Attempts)
    ensures a.tried <= valid
    ensures forall i :: 0 <= i < |a.tried| - 1 ==> !accepts(a.tried[i])
    ensures a.applied.Some? ==> |a.tried| > 0 && a.applied.value == a.tried[|a.tried| - 1] && accepts(a.applied.value)
    ensures a.applied.None? ==> a.tried == valid && forall i :: 0 <= i < |valid| ==> !accepts(valid[i])
  {
    if |valid| == 0 then Attempts([], None)
    else if accepts(valid[0]) then Attempts([valid[0]], Some(valid[0]))
    else
      var rest := FirstAccepted(valid[1..], accepts);
      Attempts([valid[0]] + rest.tried, rest.applied)
  }

  /** The style attempts the script makes for the frame `key` of `doc`. */
  function StyleAttempts(f: TextFrame, key: string, lang: Option<string>, doc: Document,
                         accepts: (StyleKind, string, string) -> bool): Attempts
  {
    var kind := KindOf(key);
    var valid := ValidStyles(Candidates(lang, key), Available(doc, kind), CurrentStyle(f, kind));
    FirstAccepted(valid, s => accepts(kind, s, key))
  }

  /** The frame after the script wrote `value` into it and applied the first
      accepted style. Writing the text is assumed to keep the frame's styles,
      so the style of the other kind is left alone. */
  function UpdatedFrame(f: TextFrame, key: string, value: string, lang: Option<string>, doc: Document,
                        accepts: (StyleKind, string, string) -> bool): (r: TextFrame)
    ensures r.text == value
    ensures StyleOf(r, Other(KindOf(key))) == StyleOf(f, Other(KindOf(key)))
    ensures var a := StyleAttempts(f, key, lang, doc, accepts);
      StyleOf(r, KindOf(key)) == (if a.applied.Some? then a.applied.value else StyleOf(f, KindOf(key)))
  {
    var withText := f.(text := value);
    match StyleAttempts(f, key, lang, doc, accepts).applied
    case Some(style) => WithStyle(withText, KindOf(key), style)
    case None => withText
  }

  /** One iteration of the loop: a key without a same-named frame changes
      nothing. */
  function UpdateFrame(doc: Document, key: string, value: string, lang: Option<string>,
                       accepts: (StyleKind, string, string) -> bool): (d: Document)
    ensures d.characterStyles == doc.characterStyles && d.paragraphStyles == doc.paragraphStyles
    ensures d.frames.Keys == doc.frames.Keys
    ensures key !in doc.frames ==> d == doc
    ensures forall name :: name in doc.frames && name != key ==> d.frames[name] == doc.frames[name]
  {
    if key in doc.frames then
      doc.(frames := doc.frames[key := UpdatedFrame(doc.frames[key], key, value, lang, doc, accepts)])
    else
      doc
  }

  /** The loop over the metadata, in order. */
  function UpdateFrames(doc: Document, md: seq<Entry>, lang: Option<string>,
                        accepts: (StyleKind, string, string) -> bool): (d: Document)
    ensures d.characterStyles == doc.characterStyles && d.paragraphStyles == doc.paragraphStyles
    ensures d.frames.Keys == doc.frames.Keys
    decreases |md|
  {
    if |md| == 0 then doc
    else UpdateFrames(UpdateFrame(doc, md[0].0, md[0].1, lang, accepts), md[1..], lang, accepts)
  }

  /** Splitting off the first entry of a mapping with distinct keys. */
  lemma {:induction false} SplitFirst(md: seq<Entry>)
    requires DistinctKeys(md) && |md| > 0
    ensures DistinctKeys(md[1..])
    ensures Keys(md) == {md[0].0} + Keys(md[1..])
    ensures md[0].0 !in Keys(md[1..])
  {
    var rest := md[1..];
    assert forall i :: 0 <= i < |rest| ==> rest[i] == md[i + 1];
    assert Keys(md) == {md[0].0} + Keys(rest) by {
      forall k | k in Keys(md)
        ensures k in {md[0].0} + Keys(rest)
      {
        var i :| 0 <= i < |md| && md[i].0 == k;
        if i > 0 {
          assert rest[i - 1].0 == k;
        }
      }
    }
    assert md[0].0 !in Keys(rest) by {
      forall i | 0 <= i < |rest|
        ensures rest[i].0 != md[0].0
      {
        assert rest[i] == md[i + 1];
      }
    }
  }

  /** A frame's update reads the document's style sets only. */
  lemma SameStylesSameUpdate(f: TextFrame, key: string, value: string, lang: Option<string>,
                             doc: Document, doc': Document, accepts: (StyleKind, string, string) -> bool)
    requires doc'.characterStyles == doc.characterStyles && doc'.paragraphStyles == doc.paragraphStyles
    ensures UpdatedFrame(f, key, value, lang, doc', accepts) == UpdatedFrame(f, key, value, lang, doc, accepts)
  {
    assert Available(doc', KindOf(key)) == Available(doc, KindOf(key));
  }

  /** With distinct keys the loop touches every frame at most once: a frame
      named by a key ends up as that key's update of its original state,
      every other frame is left alone. */
  lemma {:induction false} UpdateFramesEffect(doc: Document, md: seq<Entry>, lang: Option<string>,
                                            accepts: (StyleKind, string, string) -> bool)
    requires DistinctKeys(md)
    ensures var d := UpdateFrames(doc, md, lang, accepts);
      && (forall name :: name in doc.frames && name !in Keys(md) ==> d.frames[name] == doc.frames[name])
      && (forall i :: 0 <= i < |md| && md[i].0 in doc.frames ==>
            d.frames[md[i].0] == UpdatedFrame(doc.frames[md[i].0], md[i].0, md[i].1, lang, doc, accepts))
    decreases |md|
  {
    if |md| > 0 {
      var key := md[0].0;
      var doc1 := UpdateFrame(doc, key, md[0].1, lang, accepts);
      var rest := md[1..];
      SplitFirst(md);
      UpdateFramesEffect(doc1, rest, lang, accepts);
      var d := UpdateFrames(doc, md, lang, accepts);
      assert d == UpdateFrames(doc1, rest, lang, accepts);
      forall i | 0 <= i < |md| && md[i].0 in doc.frames
        ensures d.frames[md[i].0] == UpdatedFrame(doc.frames[md[i].0], md[i].0, md[i].1, lang, doc, accepts)
      {
        if i > 0 {
          assert md[i] == rest[i - 1];
          assert md[i].0 in Keys(rest);
          SameStylesSameUpdate(doc.frames[md[i].0], md[i].0, md[i].1, lang, doc, doc1, accepts);
        }
      }
    }
  }

  /** How the script ends: missing mandatory keys (it returns 1), or done. */
  datatype Status = MissingKeys | Completed

  datatype Outcome = Outcome(status: Status, doc: Document)

  /** The script on a document and its metadata. */
  function UpdateDocument(doc: Document, md: seq<Entry>, accepts: (StyleKind, string, string) -> bool): (o: Outcome)
    requires DistinctKeys(md)
    ensures o.status == MissingKeys <==> !(MandatoryKeys <= Keys(md))
    ensures o.status == MissingKeys ==> o.doc == doc
    ensures o.doc.frames.Keys == doc.frames.Keys
    ensures o.doc.characterStyles == doc.characterStyles && o.doc.paragraphStyles == doc.paragraphStyles
    ensures forall name :: name in doc.frames && name !in Keys(md) ==> o.doc.frames[name] == doc.frames[name]
    ensures o.status == Completed ==>
      forall i :: 0 <= i < |md| && md[i].0 in doc.frames ==>
        o.doc.frames[md[i].0] == UpdatedFrame(doc.frames[md[i].0], md[i].0, md[i].1, Lookup(md, "lang"), doc, accepts)
  {
    if !(MandatoryKeys <= Keys(md)) then
      Outcome(MissingKeys, doc)
    else
      var lang := Lookup(md, "lang");
      UpdateFramesEffect(doc, md, lang, accepts);
      Outcome(Completed, UpdateFrames(doc, md, lang, accepts))
  }

  /** The search applies the first accepted style of the list, and applies
      one whenever the list's last style is accepted. */
  lemma FirstAcceptedIsFirst(valid: seq<string>, accepts: string -> bool)
    ensures var a := FirstAccepted(valid, accepts);
      && (a.applied.Some? ==>
            exists i :: 0 <= i < |valid| && valid[i] == a.applied.value && accepts(valid[i])
              && forall j :: 0 <= j < i ==> !accepts(valid[j]))
      && (|valid| > 0 && accepts(valid[|valid| - 1]) ==> a.applied.Some?)
  {
    var a := FirstAccepted(valid, accepts);
    if a.applied.Some? {
      var i := |a.tried| - 1;
      assert valid[..|a.tried|] == a.tried;
      assert valid[i] == a.applied.value;
      forall j | 0 <= j < i
        ensures !accepts(valid[j])
      {
        assert valid[j] == a.tried[j];
      }
    }
  }

  /** The applied style is the first of the valid styles the host accepts:
      every earlier one was rejected. Because the current style closes the
      list, a style is applied whenever the host accepts the current one. */
  lemma AppliedIsFirstAccepted(f: TextFrame, key: string, lang: Option<string>, doc: Document,
                               accepts: (StyleKind, string, string) -> bool)
    ensures var kind := KindOf(key);
      var valid := ValidStyles(Candidates(lang, key), Available(doc, kind), CurrentStyle(f, kind));
      var a := StyleAttempts(f, key, lang, doc, accepts);
      && (a.applied.Some? ==>
            exists i :: 0 <= i < |valid| && valid[i] == a.applied.value && accepts(kind, valid[i], key)
              && forall j :: 0 <= j < i ==> !accepts(kind, valid[j], key))
      && (accepts(kind, CurrentStyle(f, kind), key) ==> a.applied.Some?)
  {
    var kind := KindOf(key);
    var valid := ValidStyles(Candidates(lang, key), Available(doc, kind), CurrentStyle(f, kind));
    var acc := s => accepts(kind, s, key);
    assert StyleAttempts(f, key, lang, doc, accepts) == FirstAccepted(valid, acc);
    FirstAcceptedIsFirst(valid, acc);
  }

  /** The documented example: with `lang: cs`, a `title` frame without a
      paragraph style, and both `cs--title` and `title` defined, the styles
      to try are `cs--title`, `title`, then the default paragraph style; a
      host that accepts `cs--title` gets only that one tried. */
  lemma ScenarioLanguageFirst(f: TextFrame, doc: Document, accepts: (StyleKind, string, string) -> bool)
    requires f.paragraphStyle == ""
    requires doc.paragraphStyles == {"cs--title", "title"}
    requires accepts(Paragraph, "cs--title", "title")
    ensures ValidStyles(Candidates(Some("cs"), "title"), Available(doc, KindOf("title")), CurrentStyle(f, KindOf("title")))
      == ["cs--title", "title", "Default Paragraph Style"]
    ensures StyleAttempts(f, "title", Some("cs"), doc, accepts) == Attempts(["cs--title"], Some("cs--title"))
  {
    assert KindOf("title") == Paragraph;
    assert "cs" + "--" + "title" == "cs--title";
    assert Candidates(Some("cs"), "title") == ["cs--title", "title"];
    assert Filter(["cs--title", "title"], doc.paragraphStyles) == ["cs--title", "title"] by {
      assert ["cs--title", "title"][1..] == ["title"];
      assert ["title"][1..] == [];
    }
  }

}
