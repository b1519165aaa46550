# Scribus layout scripts, modelled in Dafny

This project models the decision logic of three Scribus scripts. The host
document is an explicit immutable record, and the layout engine's "does this
frame overflow?" query is an oracle function.

- **Overflow pagination** (`pagination.dfy`, `masterpages.dfy`). While the
  tail of a text chain overflows, the engine does the following:
  - adds a page at index `current_page + 1`, where `current_page` starts at
    the host's current page (not necessarily the head frame's page) and is
    then the last page added;
  - picks that page's master-page template through a memoising resolver;
  - puts a margin-fitted frame named `TextFrame_<page>` on the new page, with
    the head frame's columns and gap;
  - links the old tail to the new frame.

  The resolver takes the side from the page's parity in facing documents. It
  asks the user (an oracle `answer`) at most once per side. It never asks
  when the document has a single master. The edits the engine issues (pages,
  frames, links) are compared with a closed-form reference of what `n`
  extensions produce (`Run*`). The predicate `Shaped` states the run
  invariant as equalities with that reference.
- **Vertical fit-shrinker** (`shrink.dfy`). The selected frame gets the
  printable width and height 1. It then grows by 2 while its text overflows,
  until it fits or its height has reached the printable height. Heights are
  counted in steps: probe `k` is `1 + 2k`.
- **Metadata update** (`metadata.dfy`). Once the mandatory keys are present,
  each metadata value is written into the frame named like its key. A style
  is then applied: the first of `<lang>--<key>`, `<key>` (those the document
  defines) and the frame's current style that the host accepts (an oracle
  `accepts`).

`geometry.dfy` holds the page record (size, margins, unit) and rectangles.
`wrappers.dfy` holds `Option`.

The shrinker's warning says the text still overflows "at max height"
(vertically-shrink-text-frame-to-text.py:28). The loop checks the bound
before adding 2, so a frame whose text never fits ends at the first odd
probe at or above the bound, which is 51 for a printable height of 50
(`Shrink.ScenarioNeverFits`).

## Model

| member | source | states |
|---|---|---|
| Pagination.CheckPrerequisites | continue-text-in-new-page-with-text-frame.py:4-28 | The checks run in order. With no document the script exits. With a document but no selected frame it returns. It proceeds exactly when there is a document and a non-empty selection. |
| MasterPages.DefaultMaster | continue-text-in-new-page-with-text-frame.py:57-65 | The offered default is always one of the masters. With no side it is the first master. With a side it is `Normal Left`/`Normal Right` when the document has that name, otherwise the first master. |
| MasterPages.GetMasterPage | continue-text-in-new-page-with-text-frame.py:51-70 | Exactly one master: that master, with no prompt. Several: one prompt with the side and the default, and the user's answer is the result. No master: failure (the source's index error). |
| MasterPages.GetMaster | continue-text-in-new-page-with-text-frame.py:73-87 | A filled slot is returned with the resolver unchanged. An empty slot is filled with the uncached choice and is never overwritten. The other slots are unchanged. A prompt is appended exactly when the slot was empty and there are several masters. Failure happens only for an empty slot with no masters. |
| MasterPages.GetMasterAccounted | continue-text-in-new-page-with-text-frame.py:73-87 | Resolving a page keeps the resolver invariant. That invariant is one prompt per filled slot when there is a choice. Each filled slot holds the uncached choice. Only the mode's own slots are used. |
| MasterPages.GetMasterSlotAccounted | continue-text-in-new-page-with-text-frame.py:73-87 | Resolving a page keeps each slot's part of the invariant: the slot's prompt count, and its content being the uncached choice. |
| MasterPages.NewResolverAccounted | continue-text-in-new-page-with-text-frame.py:44-48 | A fresh resolver (empty memo, no prompts) satisfies the invariant. |
| MasterPages.PromptBound | continue-text-in-new-page-with-text-frame.py:74-87 | Under the invariant, at most one prompt is shown per run for non-facing pages. At most two are shown for facing pages, one per side. None is shown with a single master. |
| Pagination.FrameNameInjective | continue-text-in-new-page-with-text-frame.py:99 | `TextFrame_<p>` names differ for different page numbers, negative ones included, in both directions. |
| Pagination.PageFrame | continue-text-in-new-page-with-text-frame.py:90-104 | A new frame sits at (left margin, top margin). Its right edge is at the right margin. Its bottom edge is the bottom margin plus the unit's correction. It is named after its page and carries the given columns and gap. |
| Pagination.AddPageWithFrame | continue-text-in-new-page-with-text-frame.py:109-115 | The new page is `current_page + 1`, and its master is resolved for that index. The fitted frame is appended, then the link from the previous tail to it. It fails exactly when master resolution fails. |
| Pagination.ResolverStep | continue-text-in-new-page-with-text-frame.py:73-87 | Against the reference memo after `n` pages, resolving page `start + n + 1` gives the reference master and the reference memo for `n + 1` pages. It fails only without masters. |
| Pagination.ShapedStep | continue-text-in-new-page-with-text-frame.py:109-115 | One extension adds one frame and keeps the run invariant. It fails exactly when the document has no masters. |
| Pagination.Flow | continue-text-in-new-page-with-text-frame.py:124-125 | The loop stops at the first chain length whose tail does not overflow, and every shorter chain overflowed. It aborts only while the tail overflows. |
| Pagination.FlowShaped | continue-text-in-new-page-with-text-frame.py:118-125 | The loop keeps the run invariant. It aborts exactly when there are no masters and the tail overflows, and then it has made no edit of its own. |
| Pagination.ManageTextOverflow | continue-text-in-new-page-with-text-frame.py:118-125 | With an oracle that eventually reports no overflow, the run terminates. On success the edits are the reference edits for as many pages as there were overflowing checks, and the final tail fits. It aborts exactly when the head overflows in a document without masters. |
| Pagination.RunFramesAt | continue-text-in-new-page-with-text-frame.py:119-122 | With `start` the host's current page when the run began, the i-th created frame is the fitted frame of page `start + 1 + i`, with the head's columns and gap. |
| Pagination.RunPagesAt | continue-text-in-new-page-with-text-frame.py:110-112 | The i-th created page has index `start + 1 + i`. Its master is the one chosen for that index's slot, so the pages are consecutive. |
| Pagination.RunLinksAt | continue-text-in-new-page-with-text-frame.py:114-115 | The first link leaves the head. The i-th leaves the frame of page `start + i` and enters that of page `start + 1 + i`. |
| Pagination.ChainDistinct | continue-text-in-new-page-with-text-frame.py:99 | The head and the frames created for pages `start + 1 .. start + n` have pairwise distinct names, when the head is not named like a generated frame. |
| Pagination.ChainPath | continue-text-in-new-page-with-text-frame.py:114-115 | The links form a simple path from the head through the new frames. No frame has two successors or two predecessors, nothing enters the head, and each link follows the one entering its source. |
| Pagination.OneSuccessor | continue-text-in-new-page-with-text-frame.py:114-115 | No two links leave the same frame, provided the head is not named like a generated frame. |
| Pagination.OnePredecessor | continue-text-in-new-page-with-text-frame.py:114-115 | No two links enter the same frame, and no link enters the head. |
| Pagination.LinksInOrder | continue-text-in-new-page-with-text-frame.py:124-125 | The link leaving a frame comes right after the link entering it. The chain is therefore linear, in page order. |
| Pagination.ConsecutivePagesAlternate | continue-text-in-new-page-with-text-frame.py:79 | Consecutive page indices get opposite sides. |
| Pagination.RunPromptsBound | continue-text-in-new-page-with-text-frame.py:73-87 | Over a run there is at most one prompt for non-facing pages. There are at most two for facing pages, and then for opposite sides. There are none with a single master. The reference memo satisfies the resolver invariant. |
| Pagination.RunSlotAccounted | continue-text-in-new-page-with-text-frame.py:73-87 | Each slot of the reference memo after a run satisfies the resolver's invariant. |
| Pagination.ScenarioSingleMaster | continue-text-in-new-page-with-text-frame.py:54-55 | A single-master document that overflows twice gets two consecutive pages with that master and no prompt. |
| Pagination.ScenarioFacingOnePage | continue-text-in-new-page-with-text-frame.py:79-87 | In a facing document whose current page is 4, with one overflow, page 5 is added as a right page, after exactly one prompt for the right side. |
| Shrink.Grow | vertically-shrink-text-frame-to-text.py:26-32 | The loop terminates for every oracle. Every probe it passes overflowed and was below the bound. The probe it stops at fits or has reached the bound. Unless it did not move, that probe is below bound + 2. |
| Shrink.ShrinkTextFrame | vertically-shrink-text-frame-to-text.py:15-32 | The position is kept and the width spans the margins. The height is `1 + 2k`, and every earlier probe overflowed below the printable height. The warning is given exactly when the text still overflows, and then the height is at or above the bound. The height is 1 or less than the bound + 2. |
| Shrink.FirstFit | vertically-shrink-text-frame-to-text.py:26-32 | Without the warning, the final height is the least probe at which the text fits. |
| Shrink.ThresholdFit | vertically-shrink-text-frame-to-text.py:21-32 | When the text fits from some height within the bound onward, there is no warning, and the height is the least probe at or above that height. |
| Shrink.ScenarioFitsAt41 | vertically-shrink-text-frame-to-text.py:21-32 | Text needing 40 on a page with printable height 50 ends at 41 after 20 steps, without the warning. |
| Shrink.ScenarioNeverFits | vertically-shrink-text-frame-to-text.py:26-31 | Text that never fits on a page with printable height 50 ends at 51 with the warning, above the bound. |
| Metadata.KindOf | update_from_metadata.py:38 | A key gets a character style exactly when it is `date` or `series`, and a paragraph style otherwise. |
| Metadata.Lookup | update_from_metadata.py:63 | The language is found exactly when `lang` is a key, and it is that key's value. |
| Metadata.CurrentStyle | update_from_metadata.py:73-78 | The current style is never empty. It is the frame's own style when set, otherwise the default of the kind. |
| Metadata.Candidates | update_from_metadata.py:91-94 | `<lang>--<key>` comes first, exactly when a non-empty language is set, and `<key>` comes last. The two candidates always differ. |
| Metadata.Filter | update_from_metadata.py:96 | The result holds exactly the candidates the document defines, in candidate order, each as often as it occurs among the candidates. |
| Metadata.ValidStyles | update_from_metadata.py:96-97 | The list is non-empty and ends with the current style. Before that come exactly the defined candidates, in order and with their multiplicity. |
| Metadata.FirstAccepted | update_from_metadata.py:99-112 | The tried styles are a prefix of the list, and all but the last were rejected. The applied style is the last tried and was accepted. If none is applied, every style was tried and rejected. |
| Metadata.FirstAcceptedIsFirst | update_from_metadata.py:99-112 | The search applies the first accepted style of the list. It applies some style whenever the list's last style is accepted. |
| Metadata.AppliedIsFirstAccepted | update_from_metadata.py:85-112 | The applied style is the first valid style the host accepts. If the host accepts the current style, some style is applied. |
| Metadata.UpdatedFrame | update_from_metadata.py:80-112 | The text becomes the value. The style of the key's kind becomes the applied one, or stays when none was applied. The other kind's style is unchanged (both "stays" and "unchanged" assume the host keeps styles across `setText`; see Left out). |
| Metadata.UpdateFrame | update_from_metadata.py:69-115 | A key without a same-named frame leaves the document unchanged. Otherwise only that frame changes, and the style sets never change. |
| Metadata.UpdateFrames | update_from_metadata.py:67-117 | Processing the keys in order keeps the set of frames and the style sets. |
| Metadata.UpdateFramesEffect | update_from_metadata.py:67-117 | With distinct keys, each frame named by a key ends as that key's update of its original state. Frames named by no key are untouched. |
| Metadata.UpdateDocument | update_from_metadata.py:54-117 | The script reports missing keys exactly when `title`, `date` or `series` is absent, and then nothing changes. Otherwise every named frame is updated with the language from `lang`, and every other frame is untouched. |
| Metadata.ScenarioLanguageFirst | update_from_metadata.py:18-19 | With `lang: cs` and both styles defined, a `title` frame without a style tries `cs--title`, `title`, then the default paragraph style. A host accepting `cs--title` gets only that one. |

## Left out

- Host I/O is not modelled: message boxes, status messages, `print`, `gotoPage`, `sys.exit`, and the `main` / `__main__` entry glue. Outcomes are tags (`Prerequisite`, `Report`, `Status`, `Aborted`).
- The shrinker's own prerequisite checks (vertically-shrink-text-frame-to-text.py:6-13) are not modelled separately. They are the same two checks, in the same order, as `Pagination.CheckPrerequisites`.
- The metadata script's guards on an open and saved document (update_from_metadata.py:120-139) are entry glue and are not modelled.
- Text layout is not modelled. Overflow is an oracle: of chain length for pagination, of height for the shrinker.
- Pagination.ManageTextOverflow: termination is stated under an oracle that reports no overflow at some chain length `limit`. An oracle that overflows forever, where the source loops forever, is not modelled.
- The user's answer to a master-page prompt is an oracle. The dialog text is not modelled, only the side and the default it offers.
- Where `facing_pages` comes from is not modelled. It is a boolean fixed when the engine is built. The script reads a module constant there, not the document.
- The margins tuple is read as (left, right, top, bottom), as the scripts index it.
- The unit-correction table is an opaque four-entry constant indexed by the unit. The height hack is always on.
- Floating-point rounding is not modelled: sizes and margins are `real`.
- The host's validation of page indices, master names, frame names and style names is not modelled, beyond the style acceptance oracle.
- Pagination.OneSuccessor, Pagination.OnePredecessor, Pagination.LinksInOrder, Pagination.ChainPath, Pagination.ChainDistinct: the head frame may share a name with a generated `TextFrame_<p>` frame. These lemmas require that it does not. That case is not modelled, because the host's validation of frame names is left out (see the line on host validation above).
- Metadata.UpdatedFrame: the model assumes that `setText` (update_from_metadata.py:80) leaves the frame's styles alone. So the style of the other kind than the key's is unchanged, and when the host rejects every valid style, the current style included, the frame keeps its previous style of the key's kind. The script's docstring says replacing the text removes the current formatting (update_from_metadata.py:12-13), so both are assumptions about the host, not promises of the script. `Metadata.UpdateFramesEffect` and `Metadata.UpdateDocument` are built from `UpdatedFrame` and rest on the same assumption.
- Metadata: YAML parsing, the file's opening and its `IOError` path (update_from_metadata.py:43-51) are not modelled. The metadata is an ordered sequence of (key, string value) pairs with distinct keys, so `str(value)` is taken as done.
- Metadata.Lookup: a non-string `lang` value (a number, `null`) is not modelled. Only its truthiness as a non-empty string is.
- Metadata: `getAllObjects` lists the objects of the current page. The model takes the document's frame map as that list.
