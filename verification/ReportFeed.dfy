/**
 The persisted retry protocol for an issuer's interim report: the release feed is read at most
 once in twenty hours, a new report's page is requested a bounded number of times, and the last
 good check keeps serving until a newer one has been parsed. Every attempt is saved before its
 request, so that a crash or a failed request still counts.

 A run is a sequence of steps on the entry in memory and the entry on disk; a crash may follow
 any step and forgets the memory. The results hold for every sequence of runs and crashes.
 */
module ReportFeed {
  import opened Wrappers

  const RSS_MIN_SECONDS := 20 * 3600
  const MAX_ATTEMPTS: nat := 3

  /** The cached entry of one issuer. `parser` is the version of the rules that wrote it. */
  datatype Entry<C> = Entry(parser: nat, rssReadAt: Option<int>, link: Option<string>,
                            pending: Option<string>, attempts: Option<nat>, check: Option<C>)

  function Fresh<C>(parser: nat): Entry<C> {
    Entry(parser, None, None, None, None, None)
  }

  /** An entry of another parser version is dropped: the feed and the report are read again. */
  function Loaded<C>(disk: Entry<C>, parser: nat): Entry<C> {
    if disk.parser == parser then disk else Fresh(parser)
  }

  predicate IsDue<C>(e: Entry<C>, now: int) {
    e.rssReadAt.None? || now - e.rssReadAt.value >= RSS_MIN_SECONDS
  }

  predicate IsReleaseLink(link: string) {
    "https://news.cision.com/" <= link
  }

  /** The entry after the newest link is known: a link not met before starts with no attempts. */
  function Noted<C>(e: Entry<C>, link: string): Entry<C> {
    if IsReleaseLink(link) && e.link != Some(link) && e.pending != Some(link)
    then e.(pending := Some(link), attempts := Some(0)) else e
  }

  /** A pending entry without a counter makes the source raise, which ends the attempt. */
  predicate MayRequest<C>(e: Entry<C>, link: string) {
    IsReleaseLink(link) && e.link != Some(link) && e.attempts.Some? && e.attempts.value < MAX_ATTEMPTS
  }

  // ---- the protocol as steps

  datatype Run<C> =
    | Idle
    | Deciding(now: int, mem: Entry<C>)
    | FeedRequested(now: int, mem: Entry<C>)
    | PageRequested(now: int, mem: Entry<C>, title: string, link: string)
    | Finishing(now: int, mem: Entry<C>)

  /**
   The last three fields are not program state: the times of all feed requests, the newest link the feed has shown,
   and how often its page was requested since it became the newest.
   */
  datatype State<C> = State(disk: Entry<C>, run: Run<C>, feedReads: seq<int>, newest: Option<string>, asked: nat)

  datatype Step =
    | Start(now: int)
    | ReadFeed                                  // save the attempt, then request the feed
    | SkipFeed
    | FeedFails
    | FeedShows(title: string, link: string)    // the newest report, or two empty texts
    | PageFails
    | PageShows(page: string)
    | Finish                                    // the save at the end
    | Crash

  type Parser<C> = (string, string, string) -> Option<C>

  predicate Enabled<C>(s: State<C>, step: Step) {
    match step
    case Start(_) => s.run.Idle?
    case ReadFeed => s.run.Deciding? && IsDue(s.run.mem, s.run.now)
    case SkipFeed => s.run.Deciding? && !IsDue(s.run.mem, s.run.now)
    case FeedFails | FeedShows(_, _) => s.run.FeedRequested?
    case PageFails | PageShows(_) => s.run.PageRequested?
    case Finish => s.run.Finishing?
    case Crash => !s.run.Idle?
  }

  function Apply<C>(s: State<C>, step: Step, parser: nat, parse: Parser<C>): State<C>
    requires Enabled(s, step)
  {
    match step
    case Start(now) => s.(run := Deciding(now, Loaded(s.disk, parser)))
    case ReadFeed =>
      var mem := s.run.mem.(rssReadAt := Some(s.run.now));
      s.(disk := mem, run := FeedRequested(s.run.now, mem), feedReads := s.feedReads + [s.run.now])
    case SkipFeed => s.(run := Finishing(s.run.now, s.run.mem))
    case FeedFails => s.(run := Finishing(s.run.now, s.run.mem))
    case FeedShows(title, link) =>
      var t := if s.newest == Some(link) then s else s.(newest := Some(link), asked := 0);
      var mem := Noted(s.run.mem, link);
      if MayRequest(mem, link) then
        var counted := mem.(attempts := Some(mem.attempts.value + 1));
        t.(disk := counted, run := PageRequested(s.run.now, counted, title, link), asked := t.asked + 1)
      else t.(run := Finishing(s.run.now, mem))
    case PageFails => s.(run := Finishing(s.run.now, s.run.mem))
    case PageShows(page) =>
      var check := parse(s.run.title, s.run.link, page);
      s.(run := Finishing(s.run.now,
                          if check.None? then s.run.mem
                          else s.run.mem.(link := Some(s.run.link), check := check, pending := None, attempts := Some(0))))
    case Finish => s.(disk := s.run.mem, run := Idle)
    case Crash => s.(run := Idle)
  }

  /** Any persisted entry may be found at first, also one of an older parser. */
  predicate Starts<C>(s: State<C>) {
    s.run.Idle? && s.feedReads == [] && s.newest.None? && s.asked == 0
  }

  ghost predicate IsPath<C>(states: seq<State<C>>, steps: seq<Step>, parser: nat, parse: Parser<C>) {
    && |states| == |steps| + 1
    && forall i :: 0 <= i < |steps| ==>
         Enabled(states[i], steps[i]) && states[i + 1] == Apply(states[i], steps[i], parser, parse)
  }

  // ---- what every state keeps

  /** The last feed request is on record in `e`. */
  predicate RemembersRead<C>(e: Entry<C>, feedReads: seq<int>, parser: nat) {
    feedReads != [] ==> e.parser == parser && e.rssReadAt == Some(feedReads[|feedReads| - 1])
  }

  /** The requests for the newest link are on record in `e`, or its report has been read. */
  predicate RemembersRequests<C>(e: Entry<C>, newest: Option<string>, asked: nat, parser: nat) {
    asked > 0 ==>
      && e.parser == parser && newest.Some?
      && (e.link == newest || (e.pending == newest && e.attempts.Some? && e.attempts.value >= asked))
  }

  predicate Remembers<C>(s: State<C>, parser: nat) {
    && RemembersRead(s.disk, s.feedReads, parser) && RemembersRequests(s.disk, s.newest, s.asked, parser)
    && (!s.run.Idle? ==>
          && s.run.mem.parser == parser
          && RemembersRead(s.run.mem, s.feedReads, parser) && RemembersRequests(s.run.mem, s.newest, s.asked, parser))
    && (s.run.PageRequested? ==> s.newest == Some(s.run.link))
    && s.asked <= MAX_ATTEMPTS
  }

  ghost predicate AreSpaced(feedReads: seq<int>) {
    forall i, j :: 0 <= i < j < |feedReads| ==> feedReads[j] - feedReads[i] >= 72_000
  }

  lemma StepRemembers<C>(s: State<C>, step: Step, parser: nat, parse: Parser<C>)
    requires Enabled(s, step) && Remembers(s, parser) && AreSpaced(s.feedReads)
    ensures var t := Apply(s, step, parser, parse); Remembers(t, parser) && AreSpaced(t.feedReads)
  {
    if step.ReadFeed? {
      var last := |s.feedReads| - 1;
      assert forall i :: 0 <= i < last ==> s.feedReads[last] - s.feedReads[i] >= 72_000;
    }
  }

  lemma {:induction false} PathRemembers<C>(states: seq<State<C>>, steps: seq<Step>, parser: nat, parse: Parser<C>, i: nat)
    requires IsPath(states, steps, parser, parse) && Starts(states[0]) && i < |states|
    ensures Remembers(states[i], parser) && AreSpaced(states[i].feedReads)
  {
    if i > 0 {
      PathRemembers(states, steps, parser, parse, i - 1);
      StepRemembers(states[i - 1], steps[i - 1], parser, parse);
    }
  }

  /** Over any runs, crashes and failed requests, two feed requests are at least twenty hours apart. */
  lemma FeedReadsAreSpaced<C>(states: seq<State<C>>, steps: seq<Step>, parser: nat, parse: Parser<C>, i: nat)
    requires IsPath(states, steps, parser, parse) && Starts(states[0]) && i < |states|
    ensures AreSpaced(states[i].feedReads)
  {
    PathRemembers(states, steps, parser, parse, i);
  }

  // ---- page requests, counted on the path itself

  /** The page of `link` has just been requested; the next step answers the request or is a crash. */
  ghost predicate AsksForPage<C>(s: State<C>, link: string) { s.run.PageRequested? && s.run.link == link }

  /** How many of the steps from `i` up to `n` request the page of `link`. */
  ghost function PageRequests<C>(states: seq<State<C>>, i: nat, n: nat, link: string): nat
    requires i <= n < |states|
  {
    if i == n then 0 else PageRequests(states, i, n - 1, link) + if AsksForPage(states[n], link) then 1 else 0
  }

  /** From `i` up to `n`, every feed that answers shows this link as its newest. */
  ghost predicate StaysNewest(steps: seq<Step>, i: nat, n: nat, link: string)
    requires i <= n <= |steps|
  {
    forall k :: i <= k < n && steps[k].FeedShows? ==> steps[k].link == link
  }

  lemma {:induction false} RequestsAreCounted<C>(states: seq<State<C>>, steps: seq<Step>, parser: nat, parse: Parser<C>,
                                                 i: nat, n: nat, link: string)
    requires IsPath(states, steps, parser, parse) && i <= n <= |steps| && StaysNewest(steps, i, n, link)
    ensures PageRequests(states, i, n, link) > 0 ==>
              states[n].newest == Some(link) && PageRequests(states, i, n, link) <= states[n].asked
  {
    if i < n {
      RequestsAreCounted(states, steps, parser, parse, i, n - 1, link);
      assert Enabled(states[n - 1], steps[n - 1]) && states[n] == Apply(states[n - 1], steps[n - 1], parser, parse);
    }
  }

  /** While a link stays the newest, its page is requested at most three times, whatever fails in between. */
  lemma PageIsRequestedAtMostThreeTimes<C>(states: seq<State<C>>, steps: seq<Step>, parser: nat, parse: Parser<C>,
                                           i: nat, n: nat, link: string)
    requires IsPath(states, steps, parser, parse) && Starts(states[0]) && i <= n <= |steps|
    requires StaysNewest(steps, i, n, link)
    ensures PageRequests(states, i, n, link) <= 3
  {
    RequestsAreCounted(states, steps, parser, parse, i, n, link);
    PathRemembers(states, steps, parser, parse, n);
  }

  /** When a run decides about the feed: it is read exactly when it was never read, or twenty hours ago or more. */
  lemma FeedIsReadWhenDue<C>(s: State<C>)
    requires s.run.Deciding?
    ensures Enabled(s, ReadFeed) <==> (s.run.mem.rssReadAt.Some? ==> s.run.now >= s.run.mem.rssReadAt.value + 72_000)
    ensures Enabled(s, SkipFeed) <==> !Enabled(s, ReadFeed)
  {
  }

  /** A crash may come at any moment of a run, and leaves what has been saved; otherwise the run goes on. */
  lemma RunsGoOn<C>(s: State<C>, title: string, link: string, page: string, parser: nat, parse: Parser<C>)
    ensures s.run.Idle? ==> forall now :: Enabled(s, Start(now))
    ensures s.run.Deciding? ==> Enabled(s, ReadFeed) || Enabled(s, SkipFeed)
    ensures s.run.FeedRequested? ==> Enabled(s, FeedFails) && Enabled(s, FeedShows(title, link))
    ensures s.run.PageRequested? ==> Enabled(s, PageFails) && Enabled(s, PageShows(page))
    ensures s.run.Finishing? ==> Enabled(s, Finish)
    ensures !s.run.Idle? ==> Enabled(s, Crash) && Apply(s, Crash, parser, parse) == s.(run := Idle)
  {
  }

  // ---- the stored check

  /** At step `k` a page was parsed into `check`. */
  ghost predicate ParsedAt<C>(states: seq<State<C>>, steps: seq<Step>, parse: Parser<C>, k: nat, check: C)
    requires |states| == |steps| + 1
  {
    && k < |steps| && steps[k].PageShows? && states[k].run.PageRequested?
    && parse(states[k].run.title, states[k].run.link, steps[k].page) == Some(check)
  }

  /** The check of an entry is the one found on disk at first, or was parsed on the path. */
  ghost predicate CheckHasOrigin<C>(states: seq<State<C>>, steps: seq<Step>, parse: Parser<C>, n: nat, check: Option<C>)
    requires |states| == |steps| + 1
  {
    || check == states[0].disk.check
    || (check.Some? && exists k :: 0 <= k < n && ParsedAt(states, steps, parse, k, check.value))
  }

  lemma {:induction false} ChecksHaveOrigins<C>(states: seq<State<C>>, steps: seq<Step>, parser: nat, parse: Parser<C>, n: nat)
    requires IsPath(states, steps, parser, parse) && states[0].run.Idle? && states[0].disk.parser == parser && n < |states|
    ensures states[n].disk.parser == parser && CheckHasOrigin(states, steps, parse, n, states[n].disk.check)
    ensures !states[n].run.Idle? ==>
              states[n].run.mem.parser == parser && CheckHasOrigin(states, steps, parse, n, states[n].run.mem.check)
  {
    if n > 0 {
      ChecksHaveOrigins(states, steps, parser, parse, n - 1);
      var s, step := states[n - 1], steps[n - 1];
      assert Enabled(s, step) && states[n] == Apply(s, step, parser, parse);
      if step.PageShows? && parse(s.run.title, s.run.link, step.page).Some? {
        assert ParsedAt(states, steps, parse, n - 1, parse(s.run.title, s.run.link, step.page).value);
      }
    }
  }

  /** Under one parser version a stored check is never lost, and only a newly parsed one takes its place. */
  lemma StoredCheckIsReplacedOnlyByAParsedOne<C>(states: seq<State<C>>, steps: seq<Step>, parser: nat, parse: Parser<C>, n: nat)
    requires IsPath(states, steps, parser, parse) && states[0].run.Idle? && states[0].disk.parser == parser && n < |states|
    requires states[0].disk.check.Some? && states[n].disk.check != states[0].disk.check
    ensures states[n].disk.check.Some?
    ensures exists k :: 0 <= k < n && ParsedAt(states, steps, parse, k, states[n].disk.check.value)
  {
    ChecksHaveOrigins(states, steps, parser, parse, n);
  }

  /** What is parsed is kept: the step after it is a crash, or saves it with its link. */
  lemma ParsedCheckIsSaved<C>(states: seq<State<C>>, steps: seq<Step>, parser: nat, parse: Parser<C>, k: nat, check: C)
    requires IsPath(states, steps, parser, parse) && k + 1 < |steps| && ParsedAt(states, steps, parse, k, check)
    ensures steps[k + 1] in {Finish, Crash}
    ensures steps[k + 1] == Finish ==>
              && states[k + 2].disk.check == Some(check) && states[k + 2].disk.link == Some(states[k].run.link)
              && states[k + 2].disk.pending.None? && states[k + 2].disk.attempts == Some(0)
  {
    assert Enabled(states[k], steps[k]) && states[k + 1] == Apply(states[k], steps[k], parser, parse);
    assert Enabled(states[k + 1], steps[k + 1]) && states[k + 2] == Apply(states[k + 1], steps[k + 1], parser, parse);
  }

  // ---- one run of the program

  datatype Feed = NoFeed | Shows(title: string, link: string)

  datatype Page = NoPage | Text(text: string)

  function FeedAnswer(feed: Feed): Step { if feed.NoFeed? then FeedFails else FeedShows(feed.title, feed.link) }

  function PageAnswer(page: Page): Step { if page.NoPage? then PageFails else PageShows(page.text) }

  /** The steps of one run so far, with these answers to its requests; which of them are taken follows from what is enabled. */
  ghost predicate AreOneRun(steps: seq<Step>, now: int, feed: Feed, page: Page) {
    forall k :: 0 <= k < |steps| ==> steps[k] in {Start(now), ReadFeed, SkipFeed, FeedAnswer(feed), PageAnswer(page)}
  }

  /** Under the current rules the feed was never read, or was read twenty hours ago or more. */
  ghost predicate FeedIsDue<C>(disk: Entry<C>, parser: nat, now: int) {
    disk.parser == parser && disk.rssReadAt.Some? ==> now >= disk.rssReadAt.value + 72_000
  }

  /** Under the current rules the newest release has not been read, and its page was requested less than three times. */
  ghost predicate PageIsDue<C>(disk: Entry<C>, parser: nat, link: string) {
    && "https://news.cision.com/" <= link
    && (disk.parser == parser ==>
          && disk.link != Some(link)
          && (disk.pending == Some(link) ==> disk.attempts.Some? && disk.attempts.value < 3))
  }

  ghost function CheckOf<C>(page: Page, title: string, link: string, parse: Parser<C>): Option<C> {
    if page.NoPage? then None else parse(title, link, page.text)
  }

  /** The newest link is compared, counted and, where it is allowed, its page is requested and parsed. */
  method FollowLink<C>(found: Entry<C>, now: int, title: string, link: string, page: Page, parser: nat, parse: Parser<C>,
                       ghost before: seq<State<C>>, ghost taken: seq<Step>)
    returns (entry: Entry<C>, ghost states: seq<State<C>>, ghost steps: seq<Step>)
    requires IsPath(before, taken, parser, parse) && before[|taken|].run == FeedRequested(now, found)
    requires AreOneRun(taken, now, Shows(title, link), page)
    ensures IsPath(states, steps, parser, parse) && states[0] == before[0] && states[|steps|].run == Finishing(now, entry)
    ensures AreOneRun(steps, now, Shows(title, link), page) && taken <= steps
    ensures !PageIsDue(found, found.parser, link) ==> entry == found
    ensures PageIsDue(found, found.parser, link) ==>
              var check := CheckOf(page, title, link, parse);
              entry == if check.Some? then found.(link := Some(link), check := check, pending := None, attempts := Some(0))
                       else found.(pending := Some(link),
                                   attempts := Some(if found.pending == Some(link) then found.attempts.value + 1 else 1))
  {
    entry := found;
    states, steps := Extend(before, taken, FeedShows(title, link), parser, parse);
    if IsReleaseLink(link) && entry.link != Some(link) {
      if entry.pending != Some(link) { entry := entry.(pending := Some(link), attempts := Some(0)); }
      if entry.attempts.Some? && entry.attempts.value < MAX_ATTEMPTS {
        entry := entry.(attempts := Some(entry.attempts.value + 1));
        states, steps := Extend(states, steps, PageAnswer(page), parser, parse);
        var check := if page.NoPage? then None else parse(title, link, page.text);
        if check.Some? {
          entry := entry.(link := Some(link), check := check, pending := None, attempts := Some(0));
        }
      }
    }
  }

  /** A due feed is read, after the attempt has been saved, and its newest report followed. */
  method VisitFeed<C>(found: Entry<C>, now: int, feed: Feed, page: Page, parser: nat, parse: Parser<C>,
                      ghost before: seq<State<C>>, ghost taken: seq<Step>)
    returns (entry: Entry<C>, ghost states: seq<State<C>>, ghost steps: seq<Step>)
    requires IsPath(before, taken, parser, parse) && before[|taken|].run == Deciding(now, found) && IsDue(found, now)
    requires AreOneRun(taken, now, feed, page)
    ensures IsPath(states, steps, parser, parse) && states[0] == before[0] && states[|steps|].run == Finishing(now, entry)
    ensures AreOneRun(steps, now, feed, page) && taken + [ReadFeed] <= steps
    ensures entry.parser == found.parser && entry.rssReadAt == Some(now)
    ensures if feed.Shows? && PageIsDue(found, found.parser, feed.link) && CheckOf(page, feed.title, feed.link, parse).Some?
            then entry.check == CheckOf(page, feed.title, feed.link, parse) && entry.link == Some(feed.link) && entry.pending.None?
            else entry.check == found.check && entry.link == found.link
  {
    entry := found.(rssReadAt := Some(now));
    states, steps := Extend(before, taken, ReadFeed, parser, parse);
    match feed {
      case NoFeed => states, steps := Extend(states, steps, FeedFails, parser, parse);
      case Shows(title, link) => entry, states, steps := FollowLink(entry, now, title, link, page, parser, parse, states, steps);
    }
  }

  /** One undisturbed run over an issuer's entry. Its saves and requests are a path of the protocol. */
  method ReadInterimReport<C>(disk: Entry<C>, now: int, feed: Feed, page: Page, parser: nat, parse: Parser<C>)
    returns (saved: Entry<C>, served: Option<C>, ghost states: seq<State<C>>, ghost steps: seq<Step>)
    ensures IsPath(states, steps, parser, parse)
    ensures states[0] == State(disk, Idle, [], None, 0) && states[|steps|].run.Idle? && states[|steps|].disk == saved
    ensures steps != [] && steps[|steps| - 1] == Finish && AreOneRun(steps[..|steps| - 1], now, feed, page)
    ensures served == saved.check && saved.parser == parser
    ensures |steps| > 1 && steps[1] == if FeedIsDue(disk, parser, now) then ReadFeed else SkipFeed
    ensures saved.rssReadAt == if FeedIsDue(disk, parser, now) then Some(now) else disk.rssReadAt
    // a new report is served as soon as it has been parsed, the last good one until then
    ensures if FeedIsDue(disk, parser, now) && feed.Shows? && PageIsDue(disk, parser, feed.link)
               && CheckOf(page, feed.title, feed.link, parse).Some?
            then served == CheckOf(page, feed.title, feed.link, parse) && saved.link == Some(feed.link) && saved.pending.None?
            else if disk.parser == parser then served == disk.check && saved.link == disk.link
            else served.None? && saved.link.None?
  {
    var entry := Loaded(disk, parser);
    states, steps := Extend([State(disk, Idle, [], None, 0)], [], Start(now), parser, parse);
    if IsDue(entry, now) {
      entry, states, steps := VisitFeed(entry, now, feed, page, parser, parse, states, steps);
    } else {
      states, steps := Extend(states, steps, SkipFeed, parser, parse);
    }
    served := entry.check;
    saved := entry;
    states, steps := Extend(states, steps, Finish, parser, parse);
  }

  ghost method Extend<C>(states: seq<State<C>>, steps: seq<Step>, step: Step, parser: nat, parse: Parser<C>)
    returns (states': seq<State<C>>, steps': seq<Step>)
    requires IsPath(states, steps, parser, parse) && Enabled(states[|steps|], step)
    ensures IsPath(states', steps', parser, parse) && steps' == steps + [step]
    ensures states'[0] == states[0] && states'[|steps'|] == Apply(states[|steps|], step, parser, parse)
  {
    states', steps' := states + [Apply(states[|steps|], step, parser, parse)], steps + [step];
  }
}
