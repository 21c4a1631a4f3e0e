/** The background script of background.js: a per-tab count of rejected
    banners, shown as the text of the extension's badge on that tab. The
    three listeners are modelled as functions on the pair of maps, and the
    class below performs the same updates in place. */
module TabBadges {
  import opened Dom

  type TabId = int

  /** `sender.tab`, reduced to its id. */
  datatype Tab = Tab(id: TabId)

  /** The sender of a runtime message: `tab` is absent for messages that
      do not come from a content script in a tab. */
  datatype Sender = Sender(tab: Option<Tab>)

  /** A runtime message, reduced to its `type` field (the url it carries is
      never read). */
  datatype Message = Message(kind: string)

  /** The `changeInfo` of `tabs.onUpdated`, reduced to its optional
      `status`. */
  datatype ChangeInfo = ChangeInfo(status: Option<string>)

  /** The message content.js sends after a successful click. */
  const CookieRejected: string := "COOKIE_REJECTED"

  /** The text the badge of each tab was last set to. */
  datatype Badges = Badges(tabCounts: map<TabId, nat>, badgeText: map<TabId, string>)

  /** `(tabCounts.get(tabId) || 0)`: an absent entry counts as zero. */
  function CountOf(b: Badges, tabId: TabId): nat {
    if tabId in b.tabCounts then b.tabCounts[tabId] else 0
  }

  // ---------------------------------------------------------------
  // Decimal rendering of a count (`Number.prototype.toString`).

  function Digit(d: nat): (c: char)
    requires d < 10
    ensures '0' <= c <= '9' && c as int - '0' as int == d
  {
    ('0' as int + d) as char
  }

  /** The decimal digits of `n`, most significant first, without leading
      zeros. */
  function DecimalString(n: nat): (s: string)
    ensures s != []
    ensures forall i :: 0 <= i < |s| ==> '0' <= s[i] <= '9'
    ensures s[0] == '0' ==> n == 0
  {
    if n < 10 then [Digit(n)] else DecimalString(n / 10) + [Digit(n % 10)]
  }

  /** The value of a string of decimal digits. */
  function ParseDecimal(s: string): nat
    requires forall i :: 0 <= i < |s| ==> '0' <= s[i] <= '9'
  {
    if s == [] then 0
    else ParseDecimal(s[..|s| - 1]) * 10 + (s[|s| - 1] as int - '0' as int)
  }

  /** Reading the badge back gives the count it was rendered from. */
  lemma {:induction false} DecimalStringRoundTrip(n: nat)
    ensures ParseDecimal(DecimalString(n)) == n
  {
    if n >= 10 {
      var s := DecimalString(n);
      DecimalStringRoundTrip(n / 10);
      assert s[..|s| - 1] == DecimalString(n / 10);
    }
  }

  /** Different counts show different badges. */
  lemma DecimalStringInjective(m: nat, n: nat)
    requires DecimalString(m) == DecimalString(n)
    ensures m == n
  {
    DecimalStringRoundTrip(m);
    DecimalStringRoundTrip(n);
  }

  // ---------------------------------------------------------------
  // The three listeners.

  /** Whether `onMessage` counts this message (background.js:5). */
  predicate Accepted(message: Message, sender: Sender) {
    message.kind == CookieRejected && sender.tab.Some?
  }

  /** `runtime.onMessage` (background.js:4-14): a COOKIE_REJECTED message
      from a tab adds one to that tab's count and shows the new count on
      its badge; any other message changes nothing. */
  function Receive(b: Badges, message: Message, sender: Sender): (r: Badges)
    ensures !Accepted(message, sender) ==> r == b
    ensures Accepted(message, sender) ==>
              var id := sender.tab.value.id;
              && r.tabCounts.Keys == b.tabCounts.Keys + {id}
              && r.badgeText.Keys == b.badgeText.Keys + {id}
              && r.tabCounts[id] == CountOf(b, id) + 1
              && r.badgeText[id] == DecimalString(r.tabCounts[id])
              && (forall t :: t in b.tabCounts && t != id ==> r.tabCounts[t] == b.tabCounts[t])
              && (forall t :: t in b.badgeText && t != id ==> r.badgeText[t] == b.badgeText[t])
  {
    if Accepted(message, sender) then
      var id := sender.tab.value.id;
      var count := CountOf(b, id) + 1;
      Badges(b.tabCounts[id := count], b.badgeText[id := DecimalString(count)])
    else b
  }

  /** `tabs.onRemoved` (background.js:17-19): the tab's count is dropped;
      every other count and every badge stay as they were. */
  function Remove(b: Badges, tabId: TabId): (r: Badges)
    ensures r.tabCounts.Keys == b.tabCounts.Keys - {tabId}
    ensures forall t :: t in r.tabCounts ==> r.tabCounts[t] == b.tabCounts[t]
    ensures r.badgeText == b.badgeText
  {
    Badges(b.tabCounts - {tabId}, b.badgeText)
  }

  /** `tabs.onUpdated` (background.js:22-27): when the tab starts loading
      its count is dropped and its badge cleared; any other update changes
      nothing. */
  function Update(b: Badges, tabId: TabId, changeInfo: ChangeInfo): (r: Badges)
    ensures changeInfo.status != Some("loading") ==> r == b
    ensures changeInfo.status == Some("loading") ==>
              && r.tabCounts.Keys == b.tabCounts.Keys - {tabId}
              && (forall t :: t in r.tabCounts ==> r.tabCounts[t] == b.tabCounts[t])
              && r.badgeText.Keys == b.badgeText.Keys + {tabId}
              && r.badgeText[tabId] == ""
              && (forall t :: t in b.badgeText && t != tabId ==> r.badgeText[t] == b.badgeText[t])
  {
    if changeInfo.status == Some("loading") then
      Badges(b.tabCounts - {tabId}, b.badgeText[tabId := ""])
    else b
  }

  /** The invariant of the background script: every count present is at
      least one, and every tab with a count shows that count. */
  predicate Valid(b: Badges) {
    forall t :: t in b.tabCounts ==>
      b.tabCounts[t] >= 1 && t in b.badgeText && b.badgeText[t] == DecimalString(b.tabCounts[t])
  }

  lemma ReceiveKeepsValid(b: Badges, message: Message, sender: Sender)
    requires Valid(b)
    ensures Valid(Receive(b, message, sender))
  {
  }

  lemma RemoveKeepsValid(b: Badges, tabId: TabId)
    requires Valid(b)
    ensures Valid(Remove(b, tabId))
  {
  }

  lemma UpdateKeepsValid(b: Badges, tabId: TabId, changeInfo: ChangeInfo)
    requires Valid(b)
    ensures Valid(Update(b, tabId, changeInfo))
  {
  }

  /** After a tab is closed, or starts loading a new page, the next
      COOKIE_REJECTED message from it counts one and shows "1". */
  lemma CountRestartsAfterReset(b: Badges, tabId: TabId, changeInfo: ChangeInfo, message: Message, sender: Sender)
    requires changeInfo.status == Some("loading")
    requires Accepted(message, sender) && sender.tab.value.id == tabId
    ensures Receive(Remove(b, tabId), message, sender).tabCounts[tabId] == 1
    ensures Receive(Remove(b, tabId), message, sender).badgeText[tabId] == "1"
    ensures Receive(Update(b, tabId, changeInfo), message, sender).tabCounts[tabId] == 1
    ensures Receive(Update(b, tabId, changeInfo), message, sender).badgeText[tabId] == "1"
  {
  }

  // ---------------------------------------------------------------
  // Any sequence of events.

  /** One event delivered to the background script. */
  datatype Event =
    | MessageSent(message: Message, sender: Sender)
    | TabRemoved(tabId: TabId)
    | TabUpdated(tabId: TabId, changeInfo: ChangeInfo)

  function Apply(b: Badges, e: Event): Badges {
    match e
    case MessageSent(message, sender) => Receive(b, message, sender)
    case TabRemoved(tabId) => Remove(b, tabId)
    case TabUpdated(tabId, changeInfo) => Update(b, tabId, changeInfo)
  }

  function Replay(b: Badges, events: seq<Event>): Badges
    decreases |events|
  {
    if events == [] then b else Replay(Apply(b, events[0]), events[1..])
  }

  /** Whether `e` is a message that counts for tab `t`. */
  predicate CountsFor(e: Event, t: TabId) {
    e.MessageSent? && Accepted(e.message, e.sender) && e.sender.tab.value.id == t
  }

  /** Whether `e` drops the count of tab `t`. */
  predicate ResetsTab(e: Event, t: TabId) {
    || (e.TabRemoved? && e.tabId == t)
    || (e.TabUpdated? && e.tabId == t && e.changeInfo.status == Some("loading"))
  }

  /** A count for tab `t` computed from the events about `t` alone: the
      number of its COOKIE_REJECTED messages since it was last closed or
      reloaded, on top of `start` when it never was. */
  function TabCount(start: nat, events: seq<Event>, t: TabId): nat
    decreases |events|
  {
    if events == [] then start
    else if CountsFor(events[0], t) then TabCount(start + 1, events[1..], t)
    else if ResetsTab(events[0], t) then TabCount(0, events[1..], t)
    else TabCount(start, events[1..], t)
  }

  /** Tabs do not interfere: after any sequence of events, the count of
      each tab is what the events about that tab alone give. */
  lemma {:induction false} ReplayCounts(b: Badges, events: seq<Event>, t: TabId)
    ensures CountOf(Replay(b, events), t) == TabCount(CountOf(b, t), events, t)
    decreases |events|
  {
    if events != [] {
      var b1 := Apply(b, events[0]);
      assert CountOf(b1, t) == (if CountsFor(events[0], t) then CountOf(b, t) + 1
                                else if ResetsTab(events[0], t) then 0
                                else CountOf(b, t));
      ReplayCounts(b1, events[1..], t);
    }
  }

  /** The invariant holds after any sequence of events. */
  lemma {:induction false} ReplayKeepsValid(b: Badges, events: seq<Event>)
    requires Valid(b)
    ensures Valid(Replay(b, events))
    decreases |events|
  {
    if events != [] {
      var e := events[0];
      match e {
        case MessageSent(message, sender) => ReceiveKeepsValid(b, message, sender);
        case TabRemoved(tabId) => RemoveKeepsValid(b, tabId);
        case TabUpdated(tabId, changeInfo) => UpdateKeepsValid(b, tabId, changeInfo);
      }
      ReplayKeepsValid(Apply(b, e), events[1..]);
    }
  }

  // ---------------------------------------------------------------
  // The background script's state, updated in place.

  class BadgeCounter {
    var tabCounts: map<TabId, nat>
    var badgeText: map<TabId, string>

    function Snapshot(): Badges
      reads this
    {
      Badges(tabCounts, badgeText)
    }

    /** `new Map()` at start-up (background.js:2); no badge has been set. */
    constructor()
      ensures Snapshot() == Badges(map[], map[]) && Valid(Snapshot())
    {
      tabCounts := map[];
      badgeText := map[];
    }

    /** The `runtime.onMessage` listener (background.js:4-14). */
    method OnMessage(message: Message, sender: Sender)
      modifies this
      ensures Snapshot() == Receive(old(Snapshot()), message, sender)
    {
      if message.kind == CookieRejected && sender.tab.Some? {
        var tabId := sender.tab.value.id;
        var count := (if tabId in tabCounts then tabCounts[tabId] else 0) + 1;
        tabCounts := tabCounts[tabId := count];
        badgeText := badgeText[tabId := DecimalString(count)];
      }
    }

    /** The `tabs.onRemoved` listener (background.js:17-19). */
    method OnRemoved(tabId: TabId)
      modifies this
      ensures Snapshot() == Remove(old(Snapshot()), tabId)
    {
      tabCounts := tabCounts - {tabId};
    }

    /** The `tabs.onUpdated` listener (background.js:22-27). */
    method OnUpdated(tabId: TabId, changeInfo: ChangeInfo)
      modifies this
      ensures Snapshot() == Update(old(Snapshot()), tabId, changeInfo)
    {
      if changeInfo.status == Some("loading") {
        tabCounts := tabCounts - {tabId};
        badgeText := badgeText[tabId := ""];
      }
    }
  }
}
