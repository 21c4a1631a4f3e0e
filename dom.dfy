/** The parts of a web page that the banner-dismissal engine of content.js
    consults. Selector matching, DOM traversal, layout and style resolution
    belong to the browser; here they are values supplied with the document. */
module Dom {

  datatype Option<+T> = None | Some(value: T)

  /** An element as the engine sees it: its node identity, the size of its
      bounding client rectangle, the three computed-style properties it
      reads (opacity as the string the browser reports), its `textContent`,
      its form `value` when it has one, and whether calling `click()` on it
      throws. */
  datatype Element = Element(
    id: nat,
    width: real,
    height: real,
    display: string,
    visibility: string,
    opacity: string,
    textContent: string,
    value: Option<string>,
    clickThrows: bool)

  /** The outcome of `document.querySelector(selector)`: nothing matches, the
      first match in document order, or a SyntaxError for a selector the
      browser does not accept. */
  datatype QueryResult = NoMatch | FirstMatch(element: Element) | InvalidSelector

  /** A snapshot of the page during one attempt.
      `querySelector` answers document-wide queries, `body` is
      `document.body` (absent before the parser reaches it), and
      `clickablesIn(c)` is `c.querySelectorAll(...)` for the fixed selector
      of buttons, links, ARIA buttons and button/submit inputs, in document
      order. */
  datatype Document = Document(
    querySelector: string -> QueryResult,
    body: Option<Element>,
    clickablesIn: Element -> seq<Element>)

  /** A MutationRecord, reduced to the length of its `addedNodes` list. */
  datatype MutationRecord = MutationRecord(addedNodes: nat)
}
