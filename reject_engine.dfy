/** The banner-dismissal engine of content.js as the source writes it: two
    mutable variables, a click routine, and `for…of` loops with early
    returns over the catalogs and the clickables. Each method is proved to
    compute what the matching function of RejectSpec describes, so the
    properties proved there hold of the engine. */
module RejectEngine {
  import opened Dom
  import opened TextPatterns
  import opened RejectSpec

  /** Whether a batch of mutation records added any node. */
  predicate AddsNodes(mutations: seq<MutationRecord>) {
    exists i :: 0 <= i < |mutations| && mutations[i].addedNodes > 0
  }

  /** The `shouldCheck` loop of the mutation callback (content.js:219-225):
      it stops at the first record with added nodes. */
  method ShouldCheck(mutations: seq<MutationRecord>) returns (shouldCheck: bool)
    ensures shouldCheck <==> AddsNodes(mutations)
  {
    shouldCheck := false;
    var i := 0;
    while i < |mutations|
      invariant 0 <= i <= |mutations|
      invariant forall k :: 0 <= k < i ==> mutations[k].addedNodes == 0
    {
      if mutations[i].addedNodes > 0 {
        shouldCheck := true;
        break;
      }
      i := i + 1;
    }
  }

  /** The content script's state for one page. `hasRejected` and
      `checkCount` are the source's variables; `dispatched` and
      `notifications` record the `click()` calls made and the messages
      sent; `observing` is whether the mutation observer is still
      connected, and `rechecksScheduled` counts the 100 ms re-checks the
      mutation callback has scheduled. */
  class Engine {
    const catalog: Catalog
    var hasRejected: bool
    var checkCount: nat
    var dispatched: seq<Element>
    var notifications: nat
    var observing: bool
    var rechecksScheduled: nat

    /** The part of the state that RejectSpec describes. */
    function Snapshot(): State
      reads this
    {
      State(hasRejected, checkCount, dispatched, notifications)
    }

    /** The invariant of RejectSpec, on this engine. */
    predicate Valid()
      reads this
    {
      Consistent(Snapshot())
    }

    /** The script's state at page load (content.js:108-110), with the
        observer connected as `setupObserver` leaves it. */
    constructor()
      ensures catalog == Crumble
      ensures Snapshot() == Initial && Valid()
      ensures observing && rechecksScheduled == 0
    {
      catalog := Crumble;
      hasRejected := false;
      checkCount := 0;
      dispatched := [];
      notifications := 0;
      observing := true;
      rechecksScheduled := 0;
    }

    /** `notifyBackground` (content.js:203-209): one COOKIE_REJECTED
        message. A failure to deliver it is swallowed. */
    method NotifyBackground()
      modifies this`notifications
      ensures notifications == old(notifications) + 1
    {
      notifications := notifications + 1;
    }

    /** `clickElement` (content.js:112-134). An absent element, or a call
        after a rejection, does nothing; an invisible element is not
        clicked; a click that throws is caught and reports failure. */
    method ClickElement(element: Option<Element>) returns (clicked: bool)
      modifies this`hasRejected, this`dispatched, this`notifications
      ensures element.None? ==> !clicked && Snapshot() == old(Snapshot())
      ensures element.Some? ==> (clicked, Snapshot()) == Click(old(Snapshot()), element.value)
    {
      if element.None? || hasRejected {
        return false;
      }
      var e := element.value;
      if e.width == 0.0 || e.height == 0.0 || e.display == "none"
         || e.visibility == "hidden" || e.opacity == "0" {
        return false;
      }
      dispatched := dispatched + [e];
      if e.clickThrows {
        return false;
      }
      hasRejected := true;
      NotifyBackground();
      return true;
    }

    /** `tryKnownSelectors` (content.js:136-148): the reject selectors in
        catalog order, the first match of each tried, a selector that
        throws skipped. */
    method TryKnownSelectors(doc: Document) returns (found: bool)
      modifies this`hasRejected, this`dispatched, this`notifications
      ensures (found, Snapshot()) == SelectorPass(old(Snapshot()), doc, catalog)
    {
      var selectors := catalog.rejectSelectors;
      ghost var s0 := Snapshot();
      var i := 0;
      while i < |selectors|
        invariant 0 <= i <= |selectors|
        invariant Walk(s0, SelectorCandidates(doc, selectors[..i])) == (false, Snapshot())
      {
        SelectorStep(doc, selectors, i);
        WalkAppend(s0, SelectorCandidates(doc, selectors[..i]), Hit(doc, selectors[i]));
        var element: Option<Element> := None;
        match doc.querySelector(selectors[i]) {
          case FirstMatch(e) => element := Some(e);
          case NoMatch =>
          case InvalidSelector =>
        }
        if element.Some? {
          ghost var before := Snapshot();
          var clicked := ClickElement(element);
          WalkOne(before, element.value);
          if clicked {
            WalkStops(s0, SelectorCandidates(doc, selectors[..i + 1]), SelectorCandidates(doc, selectors[i + 1..]));
            SelectorsSplit(doc, selectors, i + 1);
            return true;
          }
        }
        i := i + 1;
      }
      assert SelectorCandidates(doc, selectors[..i]) == SelectorCandidates(doc, selectors) by {
        assert selectors[..i] == selectors;
      }
      return false;
    }

    /** `findBannerContainer` (content.js:150-168): the first match of the
        first banner selector whose match is shown. */
    method FindBannerContainer(doc: Document) returns (container: Option<Element>)
      ensures container == FirstContainer(doc, catalog.bannerSelectors)
    {
      var selectors := catalog.bannerSelectors;
      var i := 0;
      while i < |selectors|
        invariant 0 <= i <= |selectors|
        invariant FirstContainer(doc, selectors) == FirstContainer(doc, selectors[i..])
      {
        assert selectors[i..][1..] == selectors[i + 1..];
        match doc.querySelector(selectors[i]) {
          case FirstMatch(c) =>
            if c.width > 0.0 && c.height > 0.0 && c.display != "none" && c.visibility != "hidden" {
              return Some(c);
            }
          case NoMatch =>
          case InvalidSelector =>
        }
        i := i + 1;
      }
      return None;
    }

    /** `tryTextBasedSearch` (content.js:170-188): every clickable of the
        scope in document order until a click succeeds. `threw` reports
        the TypeError raised when there is no container and no body. */
    method TryTextBasedSearch(doc: Document) returns (found: bool, threw: bool)
      modifies this`hasRejected, this`dispatched, this`notifications
      ensures threw <==> Scope(doc, catalog).None?
      ensures (found, Snapshot()) == TextPass(old(Snapshot()), doc, catalog)
    {
      var banner := FindBannerContainer(doc);
      var container := if banner.Some? then banner else doc.body;
      assert container == Scope(doc, catalog);
      if container.None? {
        return false, true;
      }
      ghost var s0 := Snapshot();
      TextPassIn(s0, doc, catalog, container.value);
      var clickables := doc.clickablesIn(container.value);
      ghost var patterns := catalog.textPatterns;
      ghost var walked: seq<Element> := [];
      var i := 0;
      while i < |clickables|
        invariant 0 <= i <= |clickables|
        invariant walked == TextCandidates(clickables[..i], patterns)
        invariant Walk(s0, walked) == (false, Snapshot())
      {
        ghost var hits := Copies(clickables[i], Verdicts(TextOf(clickables[i]), patterns));
        WalkAppend(s0, walked, hits);
        var clicked := TryPatterns(clickables[i]);
        if clicked {
          ClickablesSplit(clickables, patterns, i);
          WalkStops(s0, walked + hits, TextCandidates(clickables[i + 1..], patterns));
          return true, false;
        }
        assert walked + hits == TextCandidates(clickables[..i + 1], patterns) by {
          ClickableStep(clickables, patterns, i);
        }
        walked := walked + hits;
        i := i + 1;
      }
      assert walked == TextCandidates(clickables, patterns) by {
        assert clickables[..i] == clickables;
      }
      return false, false;
    }

    /** The body of the loop of `tryTextBasedSearch` for one clickable
        (content.js:177-185): its text computed once, every text pattern
        tried on it in catalog order, a click attempted for each pattern
        that matches until one succeeds. */
    method TryPatterns(element: Element) returns (clicked: bool)
      modifies this`hasRejected, this`dispatched, this`notifications
      ensures (clicked, Snapshot())
           == Walk(old(Snapshot()), Copies(element, Verdicts(TextOf(element), catalog.textPatterns)))
    {
      var text := TextOf(element);
      var patterns := catalog.textPatterns;
      ghost var s0 := Snapshot();
      var j := 0;
      while j < |patterns|
        invariant 0 <= j <= |patterns|
        invariant Walk(s0, Copies(element, Verdicts(text, patterns[..j]))) == (false, Snapshot())
      {
        ghost var tried := Copies(element, Verdicts(text, patterns[..j]));
        PatternStep(element, text, patterns, j);
        WalkAppend(s0, tried, if patterns[j](text) then [element] else []);
        if patterns[j](text) {
          ghost var before := Snapshot();
          clicked := ClickElement(Some(element));
          WalkOne(before, element);
          if clicked {
            CopiesSplit(element, text, patterns, j + 1);
            WalkStops(s0, tried + [element], Copies(element, Verdicts(text, patterns[j + 1..])));
            return true;
          }
        }
        j := j + 1;
      }
      assert Verdicts(text, patterns[..j]) == Verdicts(text, patterns) by {
        assert patterns[..j] == patterns;
      }
      return false;
    }

    /** `attemptReject` (content.js:190-201). `threw` reports the TypeError
        of the text search; the state it leaves is the same either way. */
    method AttemptReject(doc: Document) returns (threw: bool)
      modifies this`hasRejected, this`checkCount, this`dispatched, this`notifications
      ensures Snapshot() == Attempt(old(Snapshot()), doc, catalog)
      ensures threw <==> AttemptThrows(old(Snapshot()), doc, catalog)
      ensures old(Valid()) ==> Valid()
    {
      ghost var s0 := Snapshot();
      threw := false;
      if !hasRejected {
        checkCount := checkCount + 1;
        if checkCount <= MaxChecks {
          var found := TryKnownSelectors(doc);
          if !found {
            var _, noScope := TryTextBasedSearch(doc);
            threw := noScope;
          }
        }
      }
      if Consistent(s0) {
        AttemptKeepsConsistent(s0, doc, catalog);
      }
    }

    /** The mutation callback (content.js:213-231): after a rejection it
        disconnects the observer; otherwise a batch that added nodes
        schedules one more re-check, and each such batch schedules its
        own. */
    method OnMutations(mutations: seq<MutationRecord>)
      modifies this`observing, this`rechecksScheduled
      ensures hasRejected ==> !observing && rechecksScheduled == old(rechecksScheduled)
      ensures !hasRejected ==> observing == old(observing)
      ensures !hasRejected ==>
                rechecksScheduled == old(rechecksScheduled) + (if AddsNodes(mutations) then 1 else 0)
    {
      if hasRejected {
        observing := false;
        return;
      }
      var shouldCheck := ShouldCheck(mutations);
      if shouldCheck {
        rechecksScheduled := rechecksScheduled + 1;
      }
    }
  }

  // ---------------------------------------------------------------
  // Steps of the methods above.

  lemma WalkOne(s: State, e: Element)
    ensures Walk(s, [e]) == Click(s, e)
  {
    assert [e][1..] == [];
  }

  /** Once a walk has clicked, what follows is never tried. */
  lemma WalkStops(s: State, a: seq<Element>, b: seq<Element>)
    requires Walk(s, a).0
    ensures Walk(s, a + b) == Walk(s, a)
  {
    WalkAppend(s, a, b);
  }

  lemma SelectorStep(doc: Document, selectors: seq<string>, i: nat)
    requires i < |selectors|
    ensures SelectorCandidates(doc, selectors[..i + 1])
         == SelectorCandidates(doc, selectors[..i]) + Hit(doc, selectors[i])
  {
    assert SelectorCandidates(doc, selectors[..i + 1])
        == SelectorCandidates(doc, selectors[..i]) + SelectorCandidates(doc, [selectors[i]]) by {
      assert selectors[..i + 1] == selectors[..i] + [selectors[i]];
      SelectorCandidatesAppend(doc, selectors[..i], [selectors[i]]);
    }
    assert SelectorCandidates(doc, [selectors[i]]) == Hit(doc, selectors[i]) by {
      assert [selectors[i]][1..] == [];
    }
  }

  lemma SelectorsSplit(doc: Document, selectors: seq<string>, k: nat)
    requires k <= |selectors|
    ensures SelectorCandidates(doc, selectors)
         == SelectorCandidates(doc, selectors[..k]) + SelectorCandidates(doc, selectors[k..])
  {
    assert selectors == selectors[..k] + selectors[k..];
    SelectorCandidatesAppend(doc, selectors[..k], selectors[k..]);
  }

  lemma PatternStep(e: Element, text: string, patterns: seq<string -> bool>, j: nat)
    requires j < |patterns|
    ensures Copies(e, Verdicts(text, patterns[..j + 1]))
         == Copies(e, Verdicts(text, patterns[..j])) + (if patterns[j](text) then [e] else [])
  {
    var v := patterns[j](text);
    assert Verdicts(text, patterns[..j + 1]) == Verdicts(text, patterns[..j]) + [v] by {
      assert patterns[..j + 1] == patterns[..j] + [patterns[j]];
      VerdictsAppend(text, patterns[..j], [patterns[j]]);
      assert [patterns[j]][1..] == [];
    }
    assert Copies(e, [v]) == (if v then [e] else []) by {
      assert [v][1..] == [];
    }
    CopiesAppend(e, Verdicts(text, patterns[..j]), [v]);
  }

  lemma ClickableStep(clickables: seq<Element>, patterns: seq<string -> bool>, i: nat)
    requires i < |clickables|
    ensures TextCandidates(clickables[..i + 1], patterns)
         == TextCandidates(clickables[..i], patterns) + Copies(clickables[i], Verdicts(TextOf(clickables[i]), patterns))
  {
    assert TextCandidates(clickables[..i + 1], patterns)
        == TextCandidates(clickables[..i], patterns) + TextCandidates([clickables[i]], patterns) by {
      assert clickables[..i + 1] == clickables[..i] + [clickables[i]];
      TextCandidatesAppend(clickables[..i], [clickables[i]], patterns);
    }
    ConcatOne(clickables[i], TextHits(patterns));
  }

  lemma ClickablesSplit(clickables: seq<Element>, patterns: seq<string -> bool>, i: nat)
    requires i < |clickables|
    ensures TextCandidates(clickables, patterns)
         == TextCandidates(clickables[..i], patterns) + Copies(clickables[i], Verdicts(TextOf(clickables[i]), patterns))
            + TextCandidates(clickables[i + 1..], patterns)
  {
    var front, back := clickables[..i + 1], clickables[i + 1..];
    assert TextCandidates(clickables, patterns) == TextCandidates(front, patterns) + TextCandidates(back, patterns) by {
      assert clickables == front + back;
      TextCandidatesAppend(front, back, patterns);
    }
    ClickableStep(clickables, patterns, i);
  }

  lemma CopiesSplit(e: Element, text: string, patterns: seq<string -> bool>, j: nat)
    requires j <= |patterns|
    ensures Copies(e, Verdicts(text, patterns))
         == Copies(e, Verdicts(text, patterns[..j])) + Copies(e, Verdicts(text, patterns[j..]))
  {
    assert Verdicts(text, patterns) == Verdicts(text, patterns[..j]) + Verdicts(text, patterns[j..]) by {
      assert patterns == patterns[..j] + patterns[j..];
      VerdictsAppend(text, patterns[..j], patterns[j..]);
    }
    CopiesAppend(e, Verdicts(text, patterns[..j]), Verdicts(text, patterns[j..]));
  }
}
