/** The update check: one cache file, two channels, and at most so many requests to the registry. */
module UpdateCheck {
  import opened Wrappers
  import opened Text
  import opened Semver

  datatype Channel = Latest | Beta

  /** The cache file as it was written, which need not be readable again. */
  datatype Cache = Cache(channel: Channel, lastCheck: nat, current: string, latest: string)

  /** The registry's answer: an error, or tags, of which either may be missing. */
  datatype Response = Error | Tags(latest: Option<string>, beta: Option<string>)

  /** A request in the log; `kept` tells that its result went into the cache in readable form. */
  datatype Request = Request(channel: Channel, at: nat, found: bool, kept: bool)

  const STABLE_INTERVAL: nat := 60 * 60 * 1000
  const NEGATIVE_INTERVAL: nat := 5 * 60 * 1000

  function ChannelOf(version: string): Channel {
    if Contains(version, "-beta.") then Beta else Latest
  }

  /** A tag counts when it is a version of the channel it stands for. */
  function Tag(tag: Option<string>, channel: Channel): Option<string> {
    if tag.Some? && ParseVersion(tag.value).Some? && ChannelOf(tag.value) == channel then Some(Trim(tag.value)) else None
  }

  function Selected(response: Response, channel: Channel): Option<string> {
    match response
    case Error => None
    case Tags(latest, beta) => if channel == Beta then Tag(beta, Beta) else Tag(latest, Latest)
  }

  predicate IsVersion(s: string) {
    ParseVersion(s).Some?
  }

  /** The version that the registry offers for the channel of the running one. */
  function Answer(response: Response, current: string): Option<string> {
    Selected(response, ChannelOf(current))
  }

  /** The cache can be read, is of this channel, and not older than an hour, or five minutes if nothing was found. */
  ghost predicate StillGood(cache: Option<Cache>, beta: bool, now: nat) {
    && cache.Some?
    && var Cache(channel, lastCheck, current, latest) := cache.value;
    && ParseVersion(current).Some? && (channel == Beta <==> beta)
    && (latest != "" ==> ParseVersion(latest).Some? && (Contains(latest, "-beta.") <==> beta))
    && lastCheck <= now < lastCheck + (if latest != "" then 3600000 else 300000)
  }

  /** A version that the registry tags for the channel, and that is one of the channel by its own text. */
  ghost predicate Offered(response: Response, beta: bool, version: Option<string>) {
    match response
    case Error => version == None
    case Tags(latest, other) =>
      var tag := if beta then other else latest;
      if tag.Some? && ParseVersion(tag.value).Some? && (Contains(tag.value, "-beta.") <==> beta)
      then version == Some(Trim(tag.value)) else version == None
  }

  lemma FreshIsStillGood(cache: Option<Cache>, current: string, now: nat)
    ensures Fresh(cache, ChannelOf(current), now) == StillGood(cache, Contains(current, "-beta."), now)
  {
  }

  lemma AnswerIsOffered(response: Response, current: string)
    ensures Offered(response, Contains(current, "-beta."), Answer(response, current))
  {
  }

  ghost predicate IsNewer(current: string, version: string) {
    IsVersion(current) && IsVersion(version) && VersionPrecedes(ParseVersion(current).value, ParseVersion(version).value)
  }

  predicate Readable(cache: Cache) {
    && IsVersion(cache.current)
    && (cache.latest != "" ==> IsVersion(cache.latest) && ChannelOf(cache.latest) == cache.channel)
  }

  function Interval(found: bool): nat {
    if found then STABLE_INTERVAL else NEGATIVE_INTERVAL
  }

  /** The cache still answers for this channel at this time. */
  predicate Fresh(cache: Option<Cache>, channel: Channel, now: nat) {
    && cache.Some? && Readable(cache.value) && cache.value.channel == channel
    && cache.value.lastCheck <= now < cache.value.lastCheck + Interval(cache.value.latest != "")
  }

  /** Neighbouring requests for one channel are as far apart as the first one's result demands. */
  ghost predicate Spaced(log: seq<Request>) {
    forall i | 0 < i < |log| && log[i - 1].kept && log[i - 1].channel == log[i].channel && log[i - 1].at <= log[i].at ::
      log[i].at >= log[i - 1].at + Interval(log[i - 1].found)
  }

  lemma TrimKeepsPart(s: string, part: string)
    requires part != "" && !IsSpace(part[0]) && !IsSpace(part[|part| - 1])
    ensures Contains(Trim(s), part) <==> Contains(s, part)
  {
    TrimStartKeepsPart(s, part);
    TrimEndKeepsPart(TrimStart(s), part);
  }

  lemma {:induction false} TrimStartKeepsPart(s: string, part: string)
    requires part != "" && !IsSpace(part[0])
    ensures Contains(TrimStart(s), part) <==> Contains(s, part)
  {
    if s != "" && IsSpace(s[0]) {
      TrimStartKeepsPart(s[1..], part);
      DiffersAt(s, part, 0, 0);
      forall i: nat ensures Occurs(s, part, i + 1) <==> Occurs(s[1..], part, i) {
        OccursBehind(s, part, 1, i);
      }
      if Contains(s, part) {
        var i :| 0 <= i <= |s| && Occurs(s, part, i);
        assert Occurs(s[1..], part, i - 1);
      }
      if Contains(s[1..], part) {
        var i :| 0 <= i <= |s[1..]| && Occurs(s[1..], part, i);
        assert Occurs(s, part, i + 1);
      }
    }
  }

  lemma {:induction false} TrimEndKeepsPart(s: string, part: string)
    requires part != "" && !IsSpace(part[|part| - 1])
    ensures Contains(TrimEnd(s), part) <==> Contains(s, part)
  {
    if s != "" && IsSpace(s[|s| - 1]) {
      var front := s[..|s| - 1];
      TrimEndKeepsPart(front, part);
      forall i: nat ensures Occurs(s, part, i) <==> Occurs(front, part, i) {
        if i + |part| < |s| {
          OccursInFront(s, part, |s| - 1, i);
        } else if i + |part| == |s| {
          DiffersAt(s, part, i, |part| - 1);
        }
      }
      if Contains(s, part) {
        var i :| 0 <= i <= |s| && Occurs(s, part, i);
        assert Occurs(front, part, i);
      }
      if Contains(front, part) {
        var i :| 0 <= i <= |front| && Occurs(front, part, i);
        assert Occurs(s, part, i);
      }
    }
  }

  lemma {:induction false} TrimStartEnds(s: string)
    ensures TrimStart(s) == "" || !IsSpace(TrimStart(s)[0])
    ensures TrimStart(TrimStart(s)) == TrimStart(s)
  {
    if s != "" && IsSpace(s[0]) {
      TrimStartEnds(s[1..]);
    }
  }

  lemma TrimTwice(s: string)
    ensures Trim(Trim(s)) == Trim(s)
  {
    TrimStartEnds(s);
    TrimEndIs(TrimStart(s));
    if Trim(s) != "" {
      assert Trim(s)[0] == TrimStart(s)[0];
    }
  }

  /** What is offered is a version of the channel, and stays one when it is read from the cache. */
  lemma SelectedIsReadable(response: Response, channel: Channel)
    requires Selected(response, channel).Some?
    ensures
      var version := Selected(response, channel).value;
      version != "" && IsVersion(version) && ChannelOf(version) == channel
  {
    var tag := if channel == Beta then response.beta.value else response.latest.value;
    TrimTwice(tag);
    TrimKeepsPart(tag, "-beta.");
    if Trim(tag) == "" {
      EmptyIsNoVersion(tag);
    }
  }

  lemma EmptyIsNoVersion(s: string)
    requires Trim(s) == ""
    ensures ParseVersion(s) == None
  {
    assert Cut("", '+') == ("", None) && Cut("", '-') == ("", None) && Cut("", '.') == ("", None);
    assert Split("", '.') == [""];
    assert Release("") == None;
  }

  class Checker {
    var cache: Option<Cache>
    ghost var log: seq<Request>

    /** The cache is what the last request left, if that was readable. */
    ghost predicate Valid()
      reads this
    {
      && Spaced(log)
      && (log != [] && log[|log| - 1].kept ==>
            var last := log[|log| - 1];
            && cache.Some? && Readable(cache.value)
            && cache.value.channel == last.channel && cache.value.lastCheck == last.at
            && (cache.value.latest != "" <==> last.found))
    }

    /** A process finds any cache file, or none. */
    constructor (cache: Option<Cache>)
      ensures Valid() && this.cache == cache && log == []
    {
      this.cache, log := cache, [];
    }

    /**
     One check. `notice` names the running and the newer version; `synced` tells that the
     installed skill files were brought up to date. `writes` tells whether the cache can be written.
     */
    method Check(skipped: bool, current: string, now: nat, response: Response, writes: bool)
      returns (notice: Option<(string, string)>, synced: bool, requested: bool)
      requires Valid()
      modifies this
      ensures Valid()
      ensures requested <==> !skipped && !Fresh(old(cache), ChannelOf(current), now)
      ensures requested <==> !skipped && !StillGood(old(cache), Contains(current, "-beta."), now)
      ensures requested ==> Offered(response, Contains(current, "-beta."), Answer(response, current))
      ensures !requested ==> log == old(log) && cache == old(cache) && notice == None
      ensures requested ==>
                log == old(log) + [Request(ChannelOf(current), now, Answer(response, current).Some?, writes && IsVersion(current))]
      ensures requested ==>
                cache == if !writes then old(cache) else
                  Some(Cache(ChannelOf(current), now, current,
                             if Answer(response, current).Some? then Answer(response, current).value else ""))
      ensures requested && writes ==> (cache.value.channel == Beta <==> Contains(current, "-beta."))
      ensures notice.Some? <==> requested && Answer(response, current).Some? && IsNewer(current, Answer(response, current).value)
      ensures notice.Some? ==> notice.value == (current, Answer(response, current).value)
      ensures synced <==>
                if requested then Answer(response, current).Some? && notice == None
                else !skipped && old(cache).value.latest != "" && IsVersion(current) && !IsNewer(current, old(cache).value.latest)
    {
      notice, synced, requested := None, false, false;
      FreshIsStillGood(cache, current, now);
      AnswerIsOffered(response, current);
      if skipped {
        return;
      }
      var channel := ChannelOf(current);
      if Fresh(cache, channel, now) {
        var comparison := CompareVersions(current, cache.value.latest);
        synced := cache.value.latest != "" && comparison.Some? && comparison.value >= 0;
        return;
      }
      requested := true;
      notice := Ask(current, now, response, writes);
      synced := Selected(response, channel).Some? && notice == None;
    }

    /** Asks the registry, keeps its answer, and tells the user about a newer version. */
    method Ask(current: string, now: nat, response: Response, writes: bool) returns (notice: Option<(string, string)>)
      requires Valid() && !Fresh(cache, ChannelOf(current), now)
      modifies this
      ensures Valid()
      ensures log == old(log) + [Request(ChannelOf(current), now, Answer(response, current).Some?, writes && IsVersion(current))]
      ensures cache == if !writes then old(cache) else
                Some(Cache(ChannelOf(current), now, current,
                           if Answer(response, current).Some? then Answer(response, current).value else ""))
      ensures notice.Some? <==> Answer(response, current).Some? && IsNewer(current, Answer(response, current).value)
      ensures notice.Some? ==> notice.value == (current, Answer(response, current).value)
    {
      var channel := ChannelOf(current);
      var selected := Selected(response, channel);
      if selected.Some? {
        SelectedIsReadable(response, channel);
      }
      if writes {
        cache := Some(Cache(channel, now, current, if selected.Some? then selected.value else ""));
      }
      log := log + [Request(channel, now, selected.Some?, writes && ParseVersion(current).Some?)];
      if selected == None {
        return None;
      }
      var comparison := CompareVersions(current, selected.value);
      return if comparison == Some(-1) then Some((current, selected.value)) else None;
    }
  }

  /** Whatever happened in between, if it was not a request for the other channel. */
  lemma {:induction false} RequestsApart(log: seq<Request>, i: nat, j: nat)
    requires Spaced(log) && i < j < |log|
    requires forall k | i <= k <= j :: log[k].kept && log[k].channel == log[i].channel
    requires forall k | i < k <= j :: log[k - 1].at <= log[k].at
    ensures log[j].at >= log[i].at + (j - i) * 5 * 60 * 1000
    ensures log[i].found ==> log[j].at >= log[i].at + 60 * 60 * 1000
  {
    if i + 1 < j {
      RequestsApart(log, i, j - 1);
    }
  }

  /** The cache holds one channel, so alternating between the two asks the registry every time. */
  method ExampleAlternatingChannels(stable: string, beta: string, now: nat, response: Response) returns (first: bool, second: bool, third: bool)
    requires ChannelOf(stable) == Latest && ChannelOf(beta) == Beta
    ensures first && second && third
  {
    var checker := new Checker(None);
    var notice, synced;
    notice, synced, first := checker.Check(false, stable, now, response, true);
    notice, synced, second := checker.Check(false, beta, now, response, true);
    notice, synced, third := checker.Check(false, stable, now, response, true);
  }

  /** A running version that is none is written to the cache all the same, which cannot be read again: every check asks. */
  method ExampleUnreadableCache(now: nat, response: Response) returns (first: bool, second: bool)
    ensures first && second
  {
    var checker := new Checker(None);
    NoDotsNoVersion("dev");
    var notice, synced;
    notice, synced, first := checker.Check(false, "dev", now, response, true);
    notice, synced, second := checker.Check(false, "dev", now, response, true);
  }

  lemma NoDotsNoVersion(s: string)
    requires s != "" && !IsSpace(s[0]) && !IsSpace(s[|s| - 1])
    requires '.' !in s && '+' !in s && '-' !in s
    ensures !IsVersion(s)
  {
    TrimNothing(s);
    CutNothing(s, '+');
    CutNothing(s, '-');
    CutNothing(s, '.');
    assert Split(s, '.') == [s];
  }
}
