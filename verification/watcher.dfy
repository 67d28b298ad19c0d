/** The background worker's `tabs.onUpdated` handler: when a tab finishes loading an
    `http` page, probe the service, ask it about the tab's URL, and on a phishing
    verdict raise a notification and set the warning icon for that tab; on a safe
    verdict set the normal icon for that tab. Any failure ends the handler quietly,
    leaving the icon as it was. */
module Watcher {
  import opened Optional
  import opened Text
  import opened Service

  datatype Icon = NormalIcon | WarningIcon

  /** `onUpdated(tabId, changeInfo, tab)`: `status` is `changeInfo.status` and `url`
      is `tab.url`, each "" when absent. */
  datatype Update = Update(tabId: int, status: string, url: string)

  /** The service's answers to the probe and to the URL check for one update. */
  datatype Answers = Answers(probe: Response<()>, urlCheck: Response<UrlVerdict>)

  datatype Event = Event(update: Update, answers: Answers)

  /** The per-tab icons the browser shows (a tab absent from the map has never been
      set by this handler), the number of notifications raised, and every request
      sent, in order. */
  datatype State = State(icons: map<int, Icon>, notifications: nat, calls: seq<Call>)

  /** The handler only acts once a page has fully loaded and its URL is `http(s)`. */
  predicate Triggers(u: Update) {
    u.status == "complete" && |u.url| > 0 && StartsWith(u.url, "http")
  }

  /** The service answered both requests, so a verdict reached the handler. */
  predicate Decides(ev: Event) {
    Triggers(ev.update) && ev.answers.probe.Ok? && ev.answers.urlCheck.Ok?
  }

  function VerdictIcon(v: UrlVerdict): Icon {
    if v.isPhishing then WarningIcon else NormalIcon
  }

  /** The icon of tab `t`, if the handler ever set one. */
  function IconOf(icons: map<int, Icon>, t: int): Option<Icon> {
    if t in icons then Some(icons[t]) else None
  }

  /** One run of the handler. */
  function OnUpdated(st: State, ev: Event): (r: State)
    // no request at all unless the page is a loaded http page; the URL check only
    // after a successful probe
    ensures !Triggers(ev.update) ==> r == st
    ensures Triggers(ev.update) ==>
              r.calls == st.calls + [GetRoot] + (if ev.answers.probe.Ok? then [PostAnalyzeUrl(ev.update.url)] else [])
    // only the updated tab's icon can change, and only on a verdict
    ensures forall t :: t != ev.update.tabId ==> IconOf(r.icons, t) == IconOf(st.icons, t)
    ensures IconOf(r.icons, ev.update.tabId) ==
            if Decides(ev) then Some(VerdictIcon(ev.answers.urlCheck.body)) else IconOf(st.icons, ev.update.tabId)
    // one notification per phishing verdict
    ensures r.notifications == st.notifications + (if Decides(ev) && ev.answers.urlCheck.body.isPhishing then 1 else 0)
  {
    var u := ev.update;
    if !Triggers(u) then st
    else if !ev.answers.probe.Ok? then
      State(st.icons, st.notifications, st.calls + [GetRoot])
    else
      var calls := st.calls + [GetRoot] + [PostAnalyzeUrl(u.url)];
      match ev.answers.urlCheck
      case Ok(v) =>
        State(st.icons[u.tabId := VerdictIcon(v)],
              st.notifications + (if v.isPhishing then 1 else 0),
              calls)
      case _ => State(st.icons, st.notifications, calls)
  }

  /** The handler run on each update in turn. */
  function Replay(st: State, events: seq<Event>): (r: State)
    // requests are only appended, notifications only added, and an icon once set stays set
    ensures st.calls <= r.calls && st.notifications <= r.notifications
    ensures forall t :: t in st.icons ==> t in r.icons
    decreases |events|
  {
    if events == [] then st else Replay(OnUpdated(st, events[0]), events[1..])
  }

  /** Updates of other tabs, and updates of tab `t` that reach no verdict, never touch
      tab `t`'s icon. */
  lemma {:induction false} IconKeptWithoutVerdict(st: State, events: seq<Event>, t: int)
    requires forall j :: 0 <= j < |events| ==> !(Decides(events[j]) && events[j].update.tabId == t)
    ensures IconOf(Replay(st, events).icons, t) == IconOf(st.icons, t)
    decreases |events|
  {
    if events != [] {
      assert !(Decides(events[0]) && events[0].update.tabId == t);
      IconKeptWithoutVerdict(OnUpdated(st, events[0]), events[1..], t);
    }
  }

  /** The icon a tab shows is the verdict of the last update of that tab that reached
      one, however many failed checks or other tabs' updates follow it. */
  lemma {:induction false} LastVerdictWins(st: State, events: seq<Event>, t: int, j: nat)
    requires j < |events| && Decides(events[j]) && events[j].update.tabId == t
    requires forall k :: j < k < |events| ==> !(Decides(events[k]) && events[k].update.tabId == t)
    ensures IconOf(Replay(st, events).icons, t) == Some(VerdictIcon(events[j].answers.urlCheck.body))
    decreases |events|
  {
    var st' := OnUpdated(st, events[0]);
    if j == 0 {
      forall k | 0 <= k < |events[1..]| ensures !(Decides(events[1..][k]) && events[1..][k].update.tabId == t) {
        assert events[1..][k] == events[k + 1];
      }
      IconKeptWithoutVerdict(st', events[1..], t);
    } else {
      forall k | j - 1 < k < |events[1..]| ensures !(Decides(events[1..][k]) && events[1..][k].update.tabId == t) {
        assert events[1..][k] == events[k + 1];
      }
      LastVerdictWins(st', events[1..], t, j - 1);
    }
  }

  /** The number of phishing verdicts among `events`. */
  function Warnings(events: seq<Event>): nat {
    if events == [] then 0
    else (if Decides(events[0]) && events[0].answers.urlCheck.body.isPhishing then 1 else 0) + Warnings(events[1..])
  }

  /** One notification per phishing verdict, none for anything else. */
  lemma {:induction false} NotificationsCounted(st: State, events: seq<Event>)
    ensures Replay(st, events).notifications == st.notifications + Warnings(events)
    decreases |events|
  {
    if events != [] {
      NotificationsCounted(OnUpdated(st, events[0]), events[1..]);
    }
  }

  /** A tab flagged on one load and judged safe on the next shows the normal icon. */
  lemma StaleWarningCleared(st: State, flagged: Event, cleared: Event)
    requires Decides(flagged) && flagged.answers.urlCheck.body.isPhishing
    requires Decides(cleared) && !cleared.answers.urlCheck.body.isPhishing
    requires cleared.update.tabId == flagged.update.tabId
    ensures IconOf(Replay(st, [flagged, cleared]).icons, flagged.update.tabId) == Some(NormalIcon)
  {
    LastVerdictWins(st, [flagged, cleared], flagged.update.tabId, 1);
  }

  /** A tab flagged on one load keeps the warning icon when the service is down on
      the next load of the same tab, even if the new page is harmless. */
  lemma OutageKeepsWarning(st: State, flagged: Event, later: Event)
    requires Decides(flagged) && flagged.answers.urlCheck.body.isPhishing
    requires later.update.tabId == flagged.update.tabId && Triggers(later.update) && !later.answers.probe.Ok?
    ensures IconOf(Replay(st, [flagged, later]).icons, flagged.update.tabId) == Some(WarningIcon)
    ensures Replay(st, [flagged, later]).calls ==
            st.calls + [GetRoot, PostAnalyzeUrl(flagged.update.url), GetRoot]
  {
    LastVerdictWins(st, [flagged, later], flagged.update.tabId, 0);
    var mid := OnUpdated(st, flagged);
    assert [flagged, later][1..] == [later] && [later][1..] == [];
    assert Replay(st, [flagged, later]) == Replay(mid, [later]);
    assert Replay(mid, [later]) == Replay(OnUpdated(mid, later), []);
  }
}
