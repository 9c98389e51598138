/**
 * The content script's life cycle (lines 9-26 and 257-270): one extraction at
 * start, a mutation watcher that schedules a delayed re-extraction whenever the
 * address has changed, and a message listener that answers with the stored
 * record. Time is abstract: a scheduled run is a pending timer, and a timer
 * firing is an event.
 */
module Watcher {
  import opened Wrappers
  import opened Url
  import opened Episodes
  import opened Extractor

  /** How one extraction turns the page shown at a time into a record, or
      throws. The life cycle is stated for any extraction; the content script
      runs `ScriptExtraction`. */
  type Extraction = (Page, int) -> Result<VideoInfo, Fault>

  /** `extractVideoInfo` with the browser's URL parser. */
  function ScriptExtraction(parse: UrlParser): Extraction {
    (page: Page, now: int) => ExtractVideoInfo(page, now, parse)
  }

  /** The one action the listener answers (line 267). */
  const QueryAction := "getPageVideoInfo"

  /** `Dead`: the first extraction threw, so neither the observer nor the
      listener was installed. `Live`: the address last seen by the observer,
      the number of scheduled runs that have not fired, and the stored record. */
  datatype State = Dead | Live(currentUrl: string, pending: nat, record: VideoInfo)

  /** A DOM mutation observed while the page shows `href`, or one scheduled
      run firing while the page is `page` at time `now`. */
  datatype Event = Mutation(href: string) | TimerFired(page: Page, now: int)

  /** Loading the script: the constructor's extraction, then the observer and
      (line 266) the listener, which are never installed when it throws. */
  function Boot(page: Page, now: int, extract: Extraction): (r: State)
    ensures r.Dead? <==> extract(page, now).Failure?
    ensures r.Live? ==>
              r.currentUrl == page.href && r.pending == 0 &&
              r.record == extract(page, now).value
  {
    match extract(page, now)
    case Failure(_) => Dead
    case Success(info) => Live(page.href, 0, info)
  }

  /** One event. A mutation schedules a run only when the address differs from
      the recorded one, and records the new address (lines 15-19); runs are
      never cancelled, so each change adds one. A firing run replaces the
      record when its extraction succeeds; a throw inside the timer leaves the
      record as it was. */
  function Step(s: State, ev: Event, extract: Extraction): (r: State)
    ensures s.Dead? <==> r.Dead?
    ensures s.Live? && ev.Mutation? ==>
              && r.record == s.record
              && r.currentUrl == ev.href
              && (ev.href != s.currentUrl ==> r.pending == s.pending + 1)
              && (ev.href == s.currentUrl ==> r == s)
    ensures s.Live? && ev.TimerFired? ==> r.currentUrl == s.currentUrl
    ensures s.Live? && ev.TimerFired? && s.pending == 0 ==> r == s
    ensures s.Live? && ev.TimerFired? && s.pending > 0 ==>
              && r.pending == s.pending - 1
              && var x := extract(ev.page, ev.now);
                 r.record == (if x.Success? then x.value else s.record)
  {
    match s
    case Dead => Dead
    case Live(current, pending, record) =>
      match ev
      case Mutation(href) =>
        if href != current then Live(href, pending + 1, record) else s
      case TimerFired(page, now) =>
        if pending == 0 then s
        else match extract(page, now)
          case Success(info) => Live(current, pending - 1, info)
          case Failure(_) => Live(current, pending - 1, record)
  }

  /** With the content script's extraction, the script dies at load exactly
      when the address mentions the override site and link discovery throws;
      otherwise it holds the record of the loaded page. */
  lemma {:induction false} ScriptBoot(page: Page, now: int, parse: UrlParser)
    ensures Boot(page, now, ScriptExtraction(parse)).Dead? <==>
              IsOverride(page.href) && EpisodeLinks(page.doc).Failure?
    ensures Boot(page, now, ScriptExtraction(parse)).Live? ==>
              && Boot(page, now, ScriptExtraction(parse)).record.url == page.href
              && Boot(page, now, ScriptExtraction(parse)).record.timestamp == now
              && DistinctUrls(Boot(page, now, ScriptExtraction(parse)).record.episodeLinks)
  {
    assert ScriptExtraction(parse)(page, now) == ExtractVideoInfo(page, now, parse);
  }

  /** A sequence of events, in order. */
  function Run(s: State, evs: seq<Event>, extract: Extraction): (r: State)
    ensures s.Dead? <==> r.Dead?
    ensures s.Live? ==> r.pending <= s.pending + |evs|
    ensures s.Live? && (forall i :: 0 <= i < |evs| ==> evs[i].Mutation?) ==> r.record == s.record
    decreases |evs|
  {
    if evs == [] then s else Run(Step(s, evs[0], extract), evs[1..], extract)
  }

  /** The listener (lines 266-270): the stored record for the query action, no
      answer for anything else, and no answer at all without a listener. */
  function Respond(s: State, action: string): (r: Option<VideoInfo>)
    ensures r.Some? <==> s.Live? && action == QueryAction
    ensures r.Some? ==> r.value == s.record
  {
    if s.Live? && action == QueryAction then Some(s.record) else None
  }

  // ---------------------------------------------------------------------------
  // Properties
  // ---------------------------------------------------------------------------

  /** A script whose first extraction threw never answers, whatever happens. */
  lemma {:induction false} DeadStaysDead(evs: seq<Event>, extract: Extraction, action: string)
    ensures Run(Dead, evs, extract) == Dead
    ensures Respond(Run(Dead, evs, extract), action) == None
    decreases |evs|
  {
    if evs != [] {
      DeadStaysDead(evs[1..], extract, action);
    }
  }

  /** How many entries of `hrefs` differ from the address seen just before
      them, starting from `current`. */
  function Changes(current: string, hrefs: seq<string>): nat
    decreases |hrefs|
  {
    if hrefs == [] then 0
    else (if hrefs[0] != current then 1 else 0) + Changes(hrefs[0], hrefs[1..])
  }

  /** The events of a run of mutations. */
  function Mutations(hrefs: seq<string>): (r: seq<Event>)
    ensures |r| == |hrefs|
    ensures forall i :: 0 <= i < |hrefs| ==> r[i] == Mutation(hrefs[i])
  {
    if hrefs == [] then [] else [Mutation(hrefs[0])] + Mutations(hrefs[1..])
  }

  /** Without coalescing: a run of mutations schedules one re-extraction per
      address change, records the last address and keeps the record. */
  lemma {:induction false} MutationsSchedulePerChange(s: State, hrefs: seq<string>, extract: Extraction)
    requires s.Live? && hrefs != []
    ensures Run(s, Mutations(hrefs), extract) ==
              Live(hrefs[|hrefs| - 1], s.pending + Changes(s.currentUrl, hrefs), s.record)
    decreases |hrefs|
  {
    var evs := Mutations(hrefs);
    var next := Step(s, evs[0], extract);
    assert evs[1..] == Mutations(hrefs[1..]);
    if |hrefs| > 1 {
      MutationsSchedulePerChange(next, hrefs[1..], extract);
    }
  }

  /** Two successive changes schedule two runs. */
  lemma {:induction false} TwoChangesTwoRuns(s: State, a: string, b: string, extract: Extraction)
    requires s.Live? && a != s.currentUrl && b != a
    ensures Run(s, [Mutation(a), Mutation(b)], extract) == Live(b, s.pending + 2, s.record)
  {
    MutationsSchedulePerChange(s, [a, b], extract);
    assert Mutations([a, b]) == [Mutation(a), Mutation(b)];
    assert Changes(s.currentUrl, [a, b]) == 1 + Changes(a, [b]);
    assert Changes(a, [b]) == 1 + Changes(b, []);
  }

  /** Running a longer sequence is running its parts one after the other. */
  lemma {:induction false} RunAppend(s: State, evs: seq<Event>, more: seq<Event>, extract: Extraction)
    ensures Run(s, evs + more, extract) == Run(Run(s, evs, extract), more, extract)
    decreases |evs|
  {
    if evs == [] {
      assert evs + more == more;
    } else {
      assert (evs + more)[0] == evs[0];
      assert (evs + more)[1..] == evs[1..] + more;
      RunAppend(Step(s, evs[0], extract), evs[1..], more, extract);
    }
  }

  /** The answer is always a record some extraction produced: the first one,
      or one made by a run that fired. */
  lemma {:induction false} AnswerWasExtracted(s: State, evs: seq<Event>, extract: Extraction)
    requires Run(s, evs, extract).Live?
    ensures var r := Run(s, evs, extract).record;
            (s.Live? && r == s.record) ||
            exists i :: 0 <= i < |evs| && evs[i].TimerFired? &&
              extract(evs[i].page, evs[i].now) == Success(r)
    decreases |evs|
  {
    if evs != [] {
      var next := Step(s, evs[0], extract);
      var rest := evs[1..];
      assert Run(s, evs, extract) == Run(next, rest, extract);
      AnswerWasExtracted(next, rest, extract);
      var r := Run(next, rest, extract).record;
      if !(next.Live? && r == next.record) {
        var i :| 0 <= i < |rest| && rest[i].TimerFired? &&
                 extract(rest[i].page, rest[i].now) == Success(r);
        assert evs[i + 1] == rest[i];
      } else if !(s.Live? && r == s.record) {
        assert evs[0].TimerFired? && extract(evs[0].page, evs[0].now) == Success(r);
      }
    }
  }

  /** After a scheduled run fires with a successful extraction, the query is
      answered with exactly that record. */
  lemma {:induction false} LatestRunAnswers(s: State, evs: seq<Event>, page: Page, now: int, extract: Extraction)
    requires Run(s, evs, extract).Live? && Run(s, evs, extract).pending > 0
    requires extract(page, now).Success?
    ensures Respond(Run(s, evs + [TimerFired(page, now)], extract), QueryAction) ==
              Some(extract(page, now).value)
  {
    RunAppend(s, evs, [TimerFired(page, now)], extract);
    var mid := Run(s, evs, extract);
    assert Run(mid, [TimerFired(page, now)], extract) == Step(mid, TimerFired(page, now), extract);
  }
}
