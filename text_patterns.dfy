/** The text side of the fallback search in content.js: the text an element
    shows, JavaScript's `trim`, and the fifteen case-insensitive,
    start-anchored reject patterns (content.js:65-81), written out as
    predicates instead of regular expressions. */
module TextPatterns {
  import opened Dom

  /** The WhiteSpace and LineTerminator code points of ECMAScript: what the
      regular-expression class `\s` matches and `String.prototype.trim`
      removes. */
  predicate IsSpace(c: char) {
    c == '\t' || c == '\n' || c == '\U{B}' || c == '\U{C}' || c == '\r' || c == ' '
    || c == '\U{A0}' || c == '\U{1680}' || ('\U{2000}' <= c <= '\U{200A}')
    || c == '\U{2028}' || c == '\U{2029}' || c == '\U{202F}' || c == '\U{205F}'
    || c == '\U{3000}' || c == '\U{FEFF}'
  }

  /** Case folding for the `i` flag. Every letter in the patterns is ASCII,
      and without the `u` flag no non-ASCII character folds onto an ASCII
      one, so folding ASCII upper case is exact here. */
  function Lower(c: char): (d: char)
    ensures 'A' <= c <= 'Z' ==> 'a' <= d <= 'z' && d as int == c as int + 32
    ensures !('A' <= c <= 'Z') ==> d == c
  {
    if 'A' <= c <= 'Z' then (c as int + 32) as char else c
  }

  function LowerAll(s: string): (r: string)
    ensures |r| == |s|
    ensures forall i :: 0 <= i < |s| ==> r[i] == Lower(s[i])
  {
    seq(|s|, i requires 0 <= i < |s| => Lower(s[i]))
  }

  /** The number of white-space characters at the start of `s`. */
  function LeadingSpaces(s: string): (n: nat)
    ensures n <= |s|
    ensures forall i :: 0 <= i < n ==> IsSpace(s[i])
    ensures n < |s| ==> !IsSpace(s[n])
  {
    if s != [] && IsSpace(s[0]) then 1 + LeadingSpaces(s[1..]) else 0
  }

  /** The number of white-space characters at the end of `s`. */
  function TrailingSpaces(s: string): (n: nat)
    ensures n <= |s|
    ensures forall i :: |s| - n <= i < |s| ==> IsSpace(s[i])
    ensures n < |s| ==> !IsSpace(s[|s| - 1 - n])
  {
    if s != [] && IsSpace(s[|s| - 1]) then 1 + TrailingSpaces(s[..|s| - 1]) else 0
  }

  /** What a greedy `\s*` leaves of `s`. */
  function DropSpaces(s: string): (r: string)
    ensures |r| <= |s| && r == s[|s| - |r|..]
    ensures forall i :: 0 <= i < |s| - |r| ==> IsSpace(s[i])
    ensures r != [] ==> !IsSpace(r[0])
  {
    s[LeadingSpaces(s)..]
  }

  /** `String.prototype.trim`: the longest middle part of `s` that neither
      starts nor ends with white space, with only white space cut away on
      either side. */
  function Trim(s: string): (r: string)
    ensures LeadingSpaces(s) + |r| <= |s|
    ensures r == s[LeadingSpaces(s)..LeadingSpaces(s) + |r|]
    ensures forall i :: LeadingSpaces(s) + |r| <= i < |s| ==> IsSpace(s[i])
    ensures r != [] ==> !IsSpace(r[0]) && !IsSpace(r[|r| - 1])
  {
    var d := s[LeadingSpaces(s)..];
    d[..|d| - TrailingSpaces(d)]
  }

  /** Text that neither starts nor ends with white space is left as it is. */
  lemma TrimUnspaced(s: string)
    requires s != [] ==> !IsSpace(s[0]) && !IsSpace(s[|s| - 1])
    ensures Trim(s) == s
  {
    assert s[0..] == s;
  }

  /** The text the fallback search tests: `textContent`, or else the form
      value, or else the empty string (JavaScript's `||` skips empty
      strings), trimmed (content.js:177). */
  function TextOf(e: Element): (r: string)
    ensures e.textContent != [] ==> r == Trim(e.textContent)
    ensures e.textContent == [] && e.value.Some? ==> r == Trim(e.value.value)
    ensures e.textContent == [] && e.value.None? ==> r == []
  {
    var shown :=
      if e.textContent != [] then e.textContent
      else if e.value.Some? && e.value.value != [] then e.value.value
      else "";
    Trim(shown)
  }

  /** The patterns of REJECT_TEXT_PATTERNS, in catalog order. */
  datatype TextPattern =
    | RejectAll                  // "reject", optionally "all", nothing more
    | DeclineAll                 // "decline", optionally "all", nothing more
    | RefuseAll                  // "refuse", optionally "all", nothing more
    | DenyAll                    // "deny", optionally "all", nothing more
    | EssentialOnly              // ["only"] "essential"["s"] ["only"], nothing more
    | NecessaryOnly              // ["only"] "necessary" ["only"], nothing more
    | RequiredOnly               // ["only"] "required" ["only"], nothing more
    | UseNecessary               // starts "use" ["only"] "necessary"
    | AcceptNecessary            // starts "accept" ["only"] "necessary"
    | AcceptEssential            // starts "accept" ["only"] "essential"
    | ContinueWithoutAccepting   // starts "continue without accepting"
    | DoNotConsent               // starts "do not" and "consent", "agree" or "accept"
    | Disagree                   // starts "disagree"
    | NoThanks                   // starts "no", an optional comma, "thanks"
    | OptOut                     // starts "opt", an optional space or hyphen, "out"

  /** The patterns that end in `$`: they must account for the whole text. */
  predicate EndAnchored(p: TextPattern) {
    p.RejectAll? || p.DeclineAll? || p.RefuseAll? || p.DenyAll?
    || p.EssentialOnly? || p.NecessaryOnly? || p.RequiredOnly?
  }

  // The building blocks below work on text already folded to lower case.
  // Every piece that follows a run of white space starts with a letter, so
  // the greedy run is the only one that can lead to a match and no
  // backtracking into it is needed.

  /** A literal word at the start of `t`: what is left after it. */
  function Word(t: string, w: string): (r: Option<string>)
    ensures r.Some? <==> w <= t
    ensures r.Some? ==> t == w + r.value
  {
    if w <= t then Some(t[|w|..]) else None
  }

  /** `\s+` at the start of `t`: what is left after the whole run. */
  function Spaces1(t: string): (r: Option<string>)
    ensures r.Some? <==> t != [] && IsSpace(t[0])
    ensures r.Some? ==> r.value == DropSpaces(t)
  {
    if t != [] && IsSpace(t[0]) then Some(DropSpaces(t)) else None
  }

  /** `w\s*(all)?$`. */
  predicate WordThenAll(t: string, w: string) {
    match Word(t, w)
    case None => false
    case Some(rest) => var tail := DropSpaces(rest); tail == "" || tail == "all"
  }

  /** `(only\s+)?` in front of `core`. */
  predicate OptionalOnlyBefore(t: string, core: string -> bool) {
    core(t)
    || match Word(t, "only")
       case None => false
       case Some(rest) => match Spaces1(rest) case None => false case Some(r) => core(r)
  }

  /** `\s+only` followed by the end of the text. */
  predicate SpacesThenOnlyAtEnd(t: string) {
    Spaces1(t) == Some("only")
  }

  /** `w(\s+only)?$`. */
  predicate WordThenOnlyAtEnd(t: string, w: string) {
    match Word(t, w)
    case None => false
    case Some(rest) => rest == "" || SpacesThenOnlyAtEnd(rest)
  }

  /** `essential(s)?(\s+only)?$`. */
  predicate EssentialThenOnlyAtEnd(t: string) {
    match Word(t, "essential")
    case None => false
    case Some(rest) =>
      rest == "" || rest == "s" || SpacesThenOnlyAtEnd(rest)
      || (rest[0] == 's' && SpacesThenOnlyAtEnd(rest[1..]))
  }

  /** `lead\s+(only\s+)?w`, with anything after `w`. */
  predicate LeadThenOptionalOnly(t: string, lead: string, w: string) {
    match Word(t, lead)
    case None => false
    case Some(rest) =>
      match Spaces1(rest)
      case None => false
      case Some(r) => OptionalOnlyBefore(r, u => w <= u)
  }

  /** `w1\s+w2\s+`: what is left after the second run of white space. */
  function TwoWords(t: string, w1: string, w2: string): (r: Option<string>)
    ensures r.Some? ==> |r.value| < |t|
  {
    match Word(t, w1)
    case None => None
    case Some(r1) =>
      match Spaces1(r1)
      case None => None
      case Some(r2) =>
        match Word(r2, w2)
        case None => None
        case Some(r3) => Spaces1(r3)
  }

  /** `continue\s+without\s+accepting`, with anything after it. */
  predicate ContinueWithout(t: string) {
    match TwoWords(t, "continue", "without")
    case None => false
    case Some(r) => "accepting" <= r
  }

  /** `do\s+not\s+(consent|agree|accept)`, with anything after it. */
  predicate DoNot(t: string) {
    match TwoWords(t, "do", "not")
    case None => false
    case Some(r) => "consent" <= r || "agree" <= r || "accept" <= r
  }

  /** `no,?\s*thanks`, with anything after it. */
  predicate NoCommaThanks(t: string) {
    match Word(t, "no")
    case None => false
    case Some(rest) => CommaSpacesThen(rest, "thanks")
  }

  /** What an optional leading comma leaves of `t`. */
  function AfterComma(t: string): string {
    if t != [] && t[0] == ',' then t[1..] else t
  }

  /** `,?\s*w`, with anything after it. */
  predicate CommaSpacesThen(t: string, w: string) {
    w <= DropSpaces(AfterComma(t))
  }

  /** `opt[\s-]?out`, with anything after it. */
  predicate OptThenOut(t: string) {
    match Word(t, "opt")
    case None => false
    case Some(rest) =>
      "out" <= rest || (rest != [] && (IsSpace(rest[0]) || rest[0] == '-') && "out" <= rest[1..])
  }

  /** Whether pattern `p` matches the lower-case text `t`. */
  predicate MatchesFolded(p: TextPattern, t: string) {
    match p
    case RejectAll => WordThenAll(t, "reject")
    case DeclineAll => WordThenAll(t, "decline")
    case RefuseAll => WordThenAll(t, "refuse")
    case DenyAll => WordThenAll(t, "deny")
    case EssentialOnly => OptionalOnlyBefore(t, EssentialThenOnlyAtEnd)
    case NecessaryOnly => OptionalOnlyBefore(t, u => WordThenOnlyAtEnd(u, "necessary"))
    case RequiredOnly => OptionalOnlyBefore(t, u => WordThenOnlyAtEnd(u, "required"))
    case UseNecessary => LeadThenOptionalOnly(t, "use", "necessary")
    case AcceptNecessary => LeadThenOptionalOnly(t, "accept", "necessary")
    case AcceptEssential => LeadThenOptionalOnly(t, "accept", "essential")
    case ContinueWithoutAccepting => ContinueWithout(t)
    case DoNotConsent => DoNot(t)
    case Disagree => "disagree" <= t
    case NoThanks => NoCommaThanks(t)
    case OptOut => OptThenOut(t)
  }

  /** `pattern.test(text)` for one of the catalog's patterns. */
  predicate Matches(p: TextPattern, text: string) {
    MatchesFolded(p, LowerAll(text))
  }

  /** The `i` flag: folding the text to lower case first changes no
      verdict. */
  lemma MatchesLowered(p: TextPattern, text: string)
    ensures Matches(p, LowerAll(text)) <==> Matches(p, text)
  {
    assert LowerAll(LowerAll(text)) == LowerAll(text);
  }

  /** A pattern as the predicate `pattern.test`. */
  function Test(p: TextPattern): string -> bool {
    text => Matches(p, text)
  }

  /** REJECT_TEXT_PATTERNS as predicates, in catalog order. */
  const RejectTextTests: seq<string -> bool> := [
    Test(RejectAll), Test(DeclineAll), Test(RefuseAll), Test(DenyAll),
    Test(EssentialOnly), Test(NecessaryOnly), Test(RequiredOnly),
    Test(UseNecessary), Test(AcceptNecessary), Test(AcceptEssential),
    Test(ContinueWithoutAccepting), Test(DoNotConsent), Test(Disagree), Test(NoThanks), Test(OptOut)
  ]

  // Examples the patterns are meant to accept and to refuse.

  lemma RejectAllExamples()
    ensures Matches(RejectAll, "Reject All")
    ensures Matches(RejectAll, "reject")
    ensures !Matches(RejectAll, "Reject cookies")
  {
    RejectAllFolded();
    RejectCookiesFolded();
  }

  lemma RejectAllFolded()
    ensures LowerAll("Reject All") == "reject all" && LowerAll("reject") == "reject"
    ensures WordThenAll("reject all", "reject") && WordThenAll("reject", "reject")
  {
    RejectAllLowered();
    RejectAllWords();
  }

  lemma RejectAllLowered()
    ensures LowerAll("Reject All") == "reject all" && LowerAll("reject") == "reject"
  {
  }

  lemma RejectAllWords()
    ensures WordThenAll("reject all", "reject") && WordThenAll("reject", "reject")
  {
    assert Word("reject all", "reject") == Some(" all");
    assert DropSpaces(" all") == "all";
    assert Word("reject", "reject") == Some("");
  }

  lemma RejectCookiesFolded()
    ensures LowerAll("Reject cookies") == "reject cookies"
    ensures !WordThenAll("reject cookies", "reject")
  {
    RejectCookiesLowered();
    assert Word("reject cookies", "reject") == Some(" cookies");
    CookiesAfterSpace();
  }

  lemma RejectCookiesLowered()
    ensures LowerAll("Reject cookies") == "reject cookies"
  {
  }

  lemma CookiesAfterSpace()
    ensures DropSpaces(" cookies") == "cookies"
  {
    assert LeadingSpaces("cookies") == 0;
  }

  lemma NoThanksExamples()
    ensures Matches(NoThanks, "No thanks")
    ensures Matches(NoThanks, "No, thanks")
  {
    NoThanksFolded();
    NoCommaThanksFolded();
  }

  lemma NoThanksFolded()
    ensures LowerAll("No thanks") == "no thanks" && NoCommaThanks("no thanks")
  {
    NoThanksLowered();
    NoThanksWords();
  }

  lemma NoThanksLowered()
    ensures LowerAll("No thanks") == "no thanks"
  {
  }

  lemma NoThanksWords()
    ensures NoCommaThanks("no thanks")
  {
    assert Word("no thanks", "no") == Some(" thanks");
    SpaceThanks();
  }

  lemma SpaceThanks()
    ensures CommaSpacesThen(" thanks", "thanks")
  {
    LeadingSpaceThanks();
  }

  lemma LeadingSpaceThanks()
    ensures DropSpaces(" thanks") == "thanks"
  {
    assert LeadingSpaces("thanks") == 0;
  }

  lemma NoCommaThanksFolded()
    ensures LowerAll("No, thanks") == "no, thanks" && NoCommaThanks("no, thanks")
  {
    NoCommaThanksLowered();
    NoCommaThanksWords();
  }

  lemma NoCommaThanksLowered()
    ensures LowerAll("No, thanks") == "no, thanks"
  {
  }

  lemma NoCommaThanksWords()
    ensures NoCommaThanks("no, thanks")
  {
    assert Word("no, thanks", "no") == Some(", thanks");
    CommaSpaceThanks();
  }

  lemma CommaSpaceThanks()
    ensures CommaSpacesThen(", thanks", "thanks")
  {
    assert ", thanks"[1..] == " thanks";
    LeadingSpaceThanks();
  }

  // A pattern without `$` only looks at a prefix of the text: whatever
  // follows a match does not undo it.

  lemma LowerAllAppend(t: string, u: string)
    ensures LowerAll(t + u) == LowerAll(t) + LowerAll(u)
  {
  }

  lemma {:induction false} LeadingSpacesAppend(t: string, u: string)
    requires LeadingSpaces(t) < |t|
    ensures LeadingSpaces(t + u) == LeadingSpaces(t)
  {
    if IsSpace(t[0]) {
      assert (t + u)[1..] == t[1..] + u;
      LeadingSpacesAppend(t[1..], u);
    }
  }

  lemma DropSpacesAppend(t: string, u: string)
    requires DropSpaces(t) != []
    ensures DropSpaces(t + u) == DropSpaces(t) + u
  {
    LeadingSpacesAppend(t, u);
    assert (t + u)[LeadingSpaces(t)..] == t[LeadingSpaces(t)..] + u;
  }

  lemma WordAppend(t: string, u: string, w: string)
    requires Word(t, w).Some?
    ensures Word(t + u, w) == Some(Word(t, w).value + u)
  {
    assert w <= t + u;
    assert (t + u)[|w|..] == t[|w|..] + u;
  }

  lemma Spaces1Append(t: string, u: string)
    requires Spaces1(t).Some? && Spaces1(t).value != []
    ensures Spaces1(t + u) == Some(Spaces1(t).value + u)
  {
    DropSpacesAppend(t, u);
  }

  lemma PrefixAppend(w: string, t: string, u: string)
    requires w <= t
    ensures w <= t + u
  {
    assert (t + u)[..|w|] == t[..|w|];
  }

  /** `lead\s+(only\s+)?w` still matches with `u` appended. */
  lemma LeadThenOptionalOnlyAppend(t: string, u: string, lead: string, w: string)
    requires w != [] && LeadThenOptionalOnly(t, lead, w)
    ensures LeadThenOptionalOnly(t + u, lead, w)
  {
    var rest := Word(t, lead).value;
    WordAppend(t, u, lead);
    var r := Spaces1(rest).value;
    assert r != [];
    Spaces1Append(rest, u);
    assert Word(t + u, lead) == Some(rest + u);
    assert Spaces1(rest + u) == Some(r + u);
    if w <= r {
      PrefixAppend(w, r, u);
    } else {
      var x := Word(r, "only").value;
      WordAppend(r, u, "only");
      Spaces1Append(x, u);
      PrefixAppend(w, Spaces1(x).value, u);
    }
  }

  lemma AfterCommaAppend(t: string, u: string)
    requires t != []
    ensures AfterComma(t + u) == AfterComma(t) + u
  {
    assert (t + u)[0] == t[0];
    if t[0] == ',' {
      assert (t + u)[1..] == t[1..] + u;
    }
  }

  /** `\s*w` still matches with `u` appended. */
  lemma SpacesThenAppend(v: string, u: string, w: string)
    requires w != [] && w <= DropSpaces(v)
    ensures w <= DropSpaces(v + u)
  {
    DropSpacesAppend(v, u);
    PrefixAppend(w, DropSpaces(v), u);
  }

  lemma CommaSpacesThenAppend(t: string, u: string, w: string)
    requires w != [] && CommaSpacesThen(t, w)
    ensures CommaSpacesThen(t + u, w)
  {
    assert t != [];
    AfterCommaAppend(t, u);
    SpacesThenAppend(AfterComma(t), u, w);
  }

  lemma NoCommaThanksAppend(t: string, u: string)
    requires NoCommaThanks(t)
    ensures NoCommaThanks(t + u)
  {
    WordAppend(t, u, "no");
    CommaSpacesThenAppend(Word(t, "no").value, u, "thanks");
  }

  lemma OptThenOutAppend(t: string, u: string)
    requires OptThenOut(t)
    ensures OptThenOut(t + u)
  {
    var rest := Word(t, "opt").value;
    WordAppend(t, u, "opt");
    if "out" <= rest {
      PrefixAppend("out", rest, u);
    } else {
      assert (rest + u)[0] == rest[0];
      assert (rest + u)[1..] == rest[1..] + u;
      PrefixAppend("out", rest[1..], u);
    }
  }

  lemma LeadPatternsExtend(p: TextPattern, t: string, u: string)
    requires p.UseNecessary? || p.AcceptNecessary? || p.AcceptEssential?
    requires MatchesFolded(p, t)
    ensures MatchesFolded(p, t + u)
  {
    if p.UseNecessary? {
      LeadThenOptionalOnlyAppend(t, u, "use", "necessary");
    } else if p.AcceptNecessary? {
      LeadThenOptionalOnlyAppend(t, u, "accept", "necessary");
    } else {
      LeadThenOptionalOnlyAppend(t, u, "accept", "essential");
    }
  }

  lemma TwoWordsAppend(t: string, u: string, w1: string, w2: string)
    requires w2 != [] && TwoWords(t, w1, w2).Some? && TwoWords(t, w1, w2).value != []
    ensures TwoWords(t + u, w1, w2) == Some(TwoWords(t, w1, w2).value + u)
  {
    var r1 := Word(t, w1).value;
    WordAppend(t, u, w1);
    var r2 := Spaces1(r1).value;
    Spaces1Append(r1, u);
    var r3 := Word(r2, w2).value;
    WordAppend(r2, u, w2);
    Spaces1Append(r3, u);
  }

  lemma ContinueWithoutAcceptingExtends(t: string, u: string)
    requires MatchesFolded(ContinueWithoutAccepting, t)
    ensures MatchesFolded(ContinueWithoutAccepting, t + u)
  {
    var r := TwoWords(t, "continue", "without").value;
    TwoWordsAppend(t, u, "continue", "without");
    PrefixAppend("accepting", r, u);
  }

  lemma DoNotConsentExtends(t: string, u: string)
    requires MatchesFolded(DoNotConsent, t)
    ensures MatchesFolded(DoNotConsent, t + u)
  {
    var r := TwoWords(t, "do", "not").value;
    assert r != [];
    TwoWordsAppend(t, u, "do", "not");
    if "consent" <= r {
      PrefixAppend("consent", r, u);
    } else if "agree" <= r {
      PrefixAppend("agree", r, u);
    } else {
      PrefixAppend("accept", r, u);
    }
  }

  lemma ShortPatternsExtend(p: TextPattern, t: string, u: string)
    requires p.Disagree? || p.NoThanks? || p.OptOut?
    requires MatchesFolded(p, t)
    ensures MatchesFolded(p, t + u)
  {
    if p.Disagree? {
      PrefixAppend("disagree", t, u);
    } else if p.NoThanks? {
      NoCommaThanksAppend(t, u);
    } else {
      OptThenOutAppend(t, u);
    }
  }

  lemma FoldedExtends(p: TextPattern, t: string, u: string)
    requires !EndAnchored(p) && MatchesFolded(p, t)
    ensures MatchesFolded(p, t + u)
  {
    if p.UseNecessary? || p.AcceptNecessary? || p.AcceptEssential? {
      LeadPatternsExtend(p, t, u);
    } else if p.ContinueWithoutAccepting? {
      ContinueWithoutAcceptingExtends(t, u);
    } else if p.DoNotConsent? {
      DoNotConsentExtends(t, u);
    } else {
      ShortPatternsExtend(p, t, u);
    }
  }

  lemma UnanchoredExtends(p: TextPattern, text: string, more: string)
    requires !EndAnchored(p) && Matches(p, text)
    ensures Matches(p, text + more)
  {
    LowerAllAppend(text, more);
    FoldedExtends(p, LowerAll(text), LowerAll(more));
  }
}
