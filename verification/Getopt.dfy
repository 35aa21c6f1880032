/**
  getopt_long in its permuting mode (librist-master/contrib/getopt-shim.c:195-434 and
  442-514): the option table, the step that consumes one option, and the parser that
  moves non-options behind options while it scans.
 */
module Getopt {
  import opened Wrappers
  import opened BlockRotation

  datatype HasArg = NoArgument | RequiredArgument | OptionalArgument

  /** A long option; flag stands for the address to store val at, 0 for none. */
  datatype LongOption = LongOption(name: string, hasArg: HasArg, flag: nat, val: int)

  /** The option letters, which here do not begin with '+' or '-', and the long options. */
  datatype Config = Config(shorts: string, longs: seq<LongOption>)

  /** What one call returns. */
  datatype Outcome =
    | Finished
    | Letter(c: char)
    | Long(index: nat)
    | UnknownLetter(c: char)
    | UnknownLong
    | AmbiguousLong
    | UnwantedArg(index: nat)
    | MissingArg(c: char)
    | MissingLongArg(index: nat)

  // ----- matching long options -----

  datatype Match = NoMatch | Ambiguous | Found(index: nat)

  predicate Identical(x: LongOption, y: LongOption) {
    x.hasArg == y.hasArg && x.flag == y.flag && x.val == y.val
  }

  /** The search from entry i on, with the best partial match so far (-1 for none). */
  function MatchFrom(longs: seq<LongOption>, name: string, i: nat, best: int, ambiguous: bool): Match
    requires i <= |longs| && -1 <= best < i
    decreases |longs| - i
  {
    if i == |longs| then
      if ambiguous then Ambiguous else if best == -1 then NoMatch else Found(best)
    else if !(name <= longs[i].name) then MatchFrom(longs, name, i + 1, best, ambiguous)
    else if |longs[i].name| == |name| then Found(i)
    else if best == -1 then MatchFrom(longs, name, i + 1, i, ambiguous)
    else MatchFrom(longs, name, i + 1, best, ambiguous || !Identical(longs[i], longs[best]))
  }

  /** No entry before i is named exactly, best is the first that name abbreviates, and ambiguous says whether a later one differs from it. */
  ghost predicate SearchedTo(longs: seq<LongOption>, name: string, i: nat, best: int, ambiguous: bool) {
    && i <= |longs| && -1 <= best < i
    && (forall j :: 0 <= j < i ==> longs[j].name != name)
    && (best == -1 ==> !ambiguous && forall j :: 0 <= j < i ==> !(name <= longs[j].name))
    && (best >= 0 ==>
          && name <= longs[best].name
          && (forall j :: 0 <= j < best ==> !(name <= longs[j].name))
          && (ambiguous <==> exists j :: best < j < i && name <= longs[j].name && !Identical(longs[j], longs[best])))
  }

  /**
    What the search means: an exact name wins, the first one if there are several;
    failing that an abbreviation must mean the same for every option it abbreviates.
   */
  ghost predicate IsMatch(longs: seq<LongOption>, name: string, m: Match) {
    match m
    case NoMatch => forall j :: 0 <= j < |longs| ==> !(name <= longs[j].name)
    case Found(k) =>
      && k < |longs| && name <= longs[k].name
      && if longs[k].name == name then forall j :: 0 <= j < k ==> longs[j].name != name
         else
           && (forall j :: 0 <= j < |longs| ==> longs[j].name != name)
           && (forall j :: 0 <= j < k ==> !(name <= longs[j].name))
           && (forall j :: k < j < |longs| && name <= longs[j].name ==> Identical(longs[j], longs[k]))
    case Ambiguous =>
      && (forall j :: 0 <= j < |longs| ==> longs[j].name != name)
      && exists i, j :: 0 <= i < j < |longs| && name <= longs[i].name && name <= longs[j].name
                        && !Identical(longs[j], longs[i])
  }

  lemma {:induction false} MatchFromMeaning(longs: seq<LongOption>, name: string, i: nat, best: int, ambiguous: bool)
    requires SearchedTo(longs, name, i, best, ambiguous)
    ensures IsMatch(longs, name, MatchFrom(longs, name, i, best, ambiguous))
    decreases |longs| - i
  {
    hide Identical;
    if i < |longs| {
      if !(name <= longs[i].name) {
        MatchFromMeaning(longs, name, i + 1, best, ambiguous);
      } else if |longs[i].name| == |name| {
        assert longs[i].name == name;
      } else if best == -1 {
        MatchFromMeaning(longs, name, i + 1, i, ambiguous);
      } else {
        MatchFromMeaning(longs, name, i + 1, best, ambiguous || !Identical(longs[i], longs[best]));
      }
    }
  }

  function LongMatch(longs: seq<LongOption>, name: string): (m: Match)
    ensures m.Found? ==> m.index < |longs|
    ensures IsMatch(longs, name, m)
  {
    MatchFromMeaning(longs, name, 0, -1, false);
    MatchFrom(longs, name, 0, -1, false)
  }

  /** The matching loop of parse_long_options. */
  method FindLong(longs: seq<LongOption>, name: string) returns (m: Match)
    ensures m == LongMatch(longs, name)
  {
    var best, ambiguous, i := -1, false, 0;
    while i < |longs|
      invariant 0 <= i <= |longs| && -1 <= best < i
      invariant LongMatch(longs, name) == MatchFrom(longs, name, i, best, ambiguous)
    {
      if name <= longs[i].name {
        if |longs[i].name| == |name| {
          return Found(i);
        }
        if best == -1 {
          best := i;
        } else if !Identical(longs[i], longs[best]) {
          ambiguous := true;
        }
      }
      i := i + 1;
    }
    m := if ambiguous then Ambiguous else if best == -1 then NoMatch else Found(best);
  }

  // ----- one option -----

  /** The first position of c in s, or |s|. */
  function IndexOf(s: string, c: char): (i: nat)
    ensures i <= |s|
    ensures forall j :: 0 <= j < i ==> s[j] != c
    ensures i < |s| ==> s[i] == c
    ensures i < |s| <==> c in s
  {
    if s == [] then 0 else if s[0] == c then 0 else 1 + IndexOf(s[1..], c)
  }

  /** Whether the character at position i of s is c; past the end there is none. */
  predicate CharAt(s: string, i: nat, c: char) {
    i < |s| && s[i] == c
  }

  /** What consuming an option leads to: the result, its argument, and where scanning goes on. */
  datatype Step = Step(outcome: Outcome, arg: Option<string>, optind: nat, place: string)

  /** parse_long_options on the text cur of entry i. */
  function LongStep(cfg: Config, argv: seq<string>, i: nat, cur: string): (s: Step)
    requires i < |argv|
    ensures i < s.optind <= |argv| && s.place == "" && s.outcome != Finished
  {
    var eq := IndexOf(cur, '=');
    match LongMatch(cfg.longs, cur[..eq])
    case Ambiguous => Step(AmbiguousLong, None, i + 1, "")
    case NoMatch => Step(UnknownLong, None, i + 1, "")
    case Found(k) =>
      var hasArg := cfg.longs[k].hasArg;
      if eq < |cur| then
        if hasArg == NoArgument then Step(UnwantedArg(k), None, i + 1, "")
        else Step(Long(k), Some(cur[eq + 1..]), i + 1, "")
      else if hasArg == RequiredArgument then
        if i + 1 < |argv| then Step(Long(k), Some(argv[i + 1]), i + 2, "")
        else Step(MissingLongArg(k), None, i + 1, "")
      else Step(Long(k), None, i + 1, "")
  }

  /** What is left of the token of an option: all of it only for a lone dash that is an option letter. */
  predicate IsPlace(cfg: Config, token: string, place: string) {
    && place != ""
    && |place| <= |token| && place == token[|token| - |place|..]
    && (place == token ==> token == "-" && '-' in cfg.shorts)
  }

  /** Consuming one option from the rest place of entry i. */
  function OptionStep(cfg: Config, argv: seq<string>, i: nat, place: string): (s: Step)
    requires i < |argv| && IsPlace(cfg, argv[i], place)
    ensures i <= s.optind <= |argv| && s.outcome != Finished
    ensures s.optind == i ==> |s.place| < |place| && IsPlace(cfg, argv[i], s.place)
    ensures s.optind > i ==> s.place == ""
  {
    var c, rest := place[0], place[1..];
    if place != argv[i] && c == '-' then LongStep(cfg, argv, i, rest)
    else
      var at := IndexOf(cfg.shorts, c);
      var next := if rest == "" then i + 1 else i;
      if c == ':' || c !in cfg.shorts then Step(UnknownLetter(c), None, next, rest)
      else if c == 'W' && CharAt(cfg.shorts, at + 1, ';') then
        if rest != "" then LongStep(cfg, argv, i, rest)
        else if i + 1 < |argv| then LongStep(cfg, argv, i + 1, argv[i + 1])
        else Step(MissingArg(c), None, i + 1, "")
      else if !CharAt(cfg.shorts, at + 1, ':') then Step(Letter(c), None, next, rest)
      else if rest != "" then Step(Letter(c), Some(rest), i + 1, "")
      else if CharAt(cfg.shorts, at + 2, ':') then Step(Letter(c), None, i + 1, "")
      else if i + 1 < |argv| then Step(Letter(c), Some(argv[i + 1]), i + 2, "")
      else Step(MissingArg(c), None, i + 1, "")
  }

  // ----- the whole scan, without moving anything -----

  predicate IsNonOption(cfg: Config, token: string) {
    token == "" || token[0] != '-' || (token == "-" && '-' !in cfg.shorts)
  }

  /** Where scanning the token of an option starts: behind the dash, or at a lone dash. */
  function FirstPlace(token: string): string
    requires token != ""
  {
    if |token| > 1 then token[1..] else token
  }

  function Repeat(b: bool, n: nat): (s: seq<bool>)
    ensures |s| == n && forall k :: 0 <= k < n ==> s[k] == b
  {
    seq(n, k => b)
  }

  /**
    Which entries from i on belong to options: the option tokens, the arguments they
    take and a terminating "--"; everything behind that is a non-option.
   */
  function OptionMask(cfg: Config, argv: seq<string>, i: nat, place: string): (mask: seq<bool>)
    requires i <= |argv| && (place != "" ==> i < |argv| && IsPlace(cfg, argv[i], place))
    ensures |mask| == |argv| - i
    decreases |argv| - i, if place == "" then 1 else 0, |place|
  {
    hide OptionStep;
    if place != "" then
      var s := OptionStep(cfg, argv, i, place);
      Repeat(true, s.optind - i) + OptionMask(cfg, argv, s.optind, s.place)
    else if i == |argv| then []
    else if IsNonOption(cfg, argv[i]) then [false] + OptionMask(cfg, argv, i + 1, "")
    else if argv[i] == "--" then [true] + Repeat(false, |argv| - i - 1)
    else OptionMask(cfg, argv, i, FirstPlace(argv[i]))
  }

  /** The results of the calls, with their arguments, in order. */
  function Results(cfg: Config, argv: seq<string>, i: nat, place: string): seq<(Outcome, Option<string>)>
    requires i <= |argv| && (place != "" ==> i < |argv| && IsPlace(cfg, argv[i], place))
    decreases |argv| - i, if place == "" then 1 else 0, |place|
  {
    hide OptionStep;
    if place != "" then
      var s := OptionStep(cfg, argv, i, place);
      [(s.outcome, s.arg)] + Results(cfg, argv, s.optind, s.place)
    else if i == |argv| || argv[i] == "--" then []
    else if IsNonOption(cfg, argv[i]) then Results(cfg, argv, i + 1, "")
    else Results(cfg, argv, i, FirstPlace(argv[i]))
  }

  // ----- stable partition -----

  /** The entries of s whose mask is v, in their order. */
  function Select<T>(s: seq<T>, mask: seq<bool>, v: bool): (r: seq<T>)
    requires |s| == |mask|
    ensures |r| <= |s|
  {
    if s == [] then []
    else Select(s[..|s| - 1], mask[..|s| - 1], v) + (if mask[|s| - 1] == v then [s[|s| - 1]] else [])
  }

  lemma SelectOne<T>(s: seq<T>, mask: seq<bool>, x: T, b: bool, v: bool)
    requires |s| == |mask|
    ensures Select(s + [x], mask + [b], v) == Select(s, mask, v) + (if b == v then [x] else [])
  {
    assert (s + [x])[..|s|] == s && (mask + [b])[..|s|] == mask;
  }

  /** Appending entries with one and the same mask. */
  lemma {:induction false} SelectAppend<T>(s: seq<T>, mask: seq<bool>, t: seq<T>, b: bool, v: bool)
    requires |s| == |mask|
    ensures Select(s + t, mask + Repeat(b, |t|), v) == Select(s, mask, v) + (if b == v then t else [])
    decreases |t|
  {
    if t == [] {
      assert s + t == s && mask + Repeat(b, 0) == mask;
    } else {
      var n := |t| - 1;
      SelectOne(s + t[..n], mask + Repeat(b, n), t[n], b, v);
      SelectAppend(s, mask, t[..n], b, v);
      hide Select;
      assert t == t[..n] + [t[n]] && s + t == (s + t[..n]) + [t[n]];
      assert mask + Repeat(b, n + 1) == (mask + Repeat(b, n)) + [b];
    }
  }

  /** Every entry is found in its half, behind exactly the entries of that half that precede it: the order is kept. */
  lemma {:induction false} SelectKeepsOrder<T>(s: seq<T>, mask: seq<bool>, i: nat)
    requires |s| == |mask| && i < |s|
    ensures |Select(s[..i], mask[..i], mask[i])| < |Select(s, mask, mask[i])|
    ensures Select(s, mask, mask[i])[|Select(s[..i], mask[..i], mask[i])|] == s[i]
    decreases |s|
  {
    var n := |s| - 1;
    if i < n {
      assert s[..n][..i] == s[..i] && mask[..n][..i] == mask[..i];
      SelectKeepsOrder(s[..n], mask[..n], i);
    }
  }

  /** The two halves together hold exactly the original entries. */
  lemma {:induction false} SelectIsPartition<T>(s: seq<T>, mask: seq<bool>)
    requires |s| == |mask|
    ensures multiset(Select(s, mask, true) + Select(s, mask, false)) == multiset(s)
    decreases |s|
  {
    if s != [] {
      var n := |s| - 1;
      SelectIsPartition(s[..n], mask[..n]);
      assert s == s[..n] + [s[n]];
    }
  }

  /** Taking k more entries with mask b into the scanned prefix. */
  lemma MaskAdvance<T>(s: seq<T>, mask: seq<bool>, i: nat, k: nat, b: bool, rest: seq<bool>)
    requires |s| == |mask| && i + k <= |s| && mask[i..] == Repeat(b, k) + rest
    ensures mask[i + k..] == rest
    ensures Select(s[..i + k], mask[..i + k], b) == Select(s[..i], mask[..i], b) + s[i..i + k]
    ensures Select(s[..i + k], mask[..i + k], !b) == Select(s[..i], mask[..i], !b)
  {
    assert mask[i + k..] == mask[i..][k..];
    assert mask[..i + k] == mask[..i] + Repeat(b, k) by {
      assert mask[i..i + k] == mask[i..][..k];
    }
    assert s[..i + k] == s[..i] + s[i..i + k];
    SelectAppend(s[..i], mask[..i], s[i..i + k], b, b);
    SelectAppend(s[..i], mask[..i], s[i..i + k], b, !b);
  }

  // ----- the parser -----

  /** Both blocks exchanged, what stands before and behind them left alone. */
  lemma ExchangedBlocks<T>(p: seq<T>, x: seq<T>, y: seq<T>, q: seq<T>)
    ensures Exchanged(p + x + y + q, |p|, |p| + |x|, |p| + |x| + |y|) == p + y + x + q
  {
    var o := p + x + y + q;
    assert o[..|p|] == p && o[|p|..|p| + |x|] == x && o[|p| + |x|..|p| + |x| + |y|] == y && o[|p| + |x| + |y|..] == q;
  }

  /** The mask of a whole scan: the program name stays in front. */
  ghost function FullMask(cfg: Config, argv: seq<string>): (mask: seq<bool>)
    requires |argv| > 0
    ensures |mask| == |argv|
  {
    [true] + OptionMask(cfg, argv, 1, "")
  }

  /** The scan of orig has reached entry i with the rest place, and sorted the entries before i as given. */
  ghost predicate Scanned(cfg: Config, orig: seq<string>, i: nat, place: string,
                          options: seq<string>, skipped: seq<string>, log: seq<(Outcome, Option<string>)>)
  {
    && 1 <= i <= |orig| && (place != "" ==> i < |orig| && IsPlace(cfg, orig[i], place))
    && i == |options| + |skipped| && |options| >= 1
    && var mask := FullMask(cfg, orig);
       && mask[i..] == OptionMask(cfg, orig, i, place)
       && options == Select(orig[..i], mask[..i], true)
       && skipped == Select(orig[..i], mask[..i], false)
       && Results(cfg, orig, 1, "") == log + Results(cfg, orig, i, place)
  }

  /** The outcome of a finished scan: a stable partition of the original vector, and optind at the first non-option. */
  ghost predicate Partitioned(cfg: Config, orig: seq<string>, argv: seq<string>, optind: nat,
                              log: seq<(Outcome, Option<string>)>)
  {
    && 0 < |orig|
    && var mask := FullMask(cfg, orig);
       && argv == Select(orig, mask, true) + Select(orig, mask, false)
       && optind == |Select(orig, mask, true)|
       && log == Results(cfg, orig, 1, "")
  }

  /** Where the partition puts entry i. */
  ghost function Position<T>(s: seq<T>, mask: seq<bool>, i: nat): nat
    requires |s| == |mask| && i < |s|
  {
    (if mask[i] then 0 else |Select(s, mask, true)|) + |Select(s[..i], mask[..i], mask[i])|
  }

  lemma PositionHolds<T>(s: seq<T>, mask: seq<bool>, i: nat)
    requires |s| == |mask| && i < |s|
    ensures var front, p := Select(s, mask, true), Position(s, mask, i);
            && p < |front| + |Select(s, mask, false)|
            && (front + Select(s, mask, false))[p] == s[i]
            && (p < |front| <==> mask[i])
  {
    SelectKeepsOrder(s, mask, i);
  }

  lemma PositionsKeepOrder<T>(s: seq<T>, mask: seq<bool>, i: nat, j: nat)
    requires |s| == |mask| && i < j < |s| && mask[i] == mask[j]
    ensures Position(s, mask, i) < Position(s, mask, j)
  {
    SelectKeepsOrder(s[..j], mask[..j], i);
    assert s[..j][..i] == s[..i] && mask[..j][..i] == mask[..i];
  }

  /**
    What the partition means entry by entry: nothing is lost, options are exactly
    what stands before optind, and two entries of the same kind keep their order.
   */
  lemma PartitionIsStable(cfg: Config, orig: seq<string>, argv: seq<string>, optind: nat,
                          log: seq<(Outcome, Option<string>)>)
    requires Partitioned(cfg, orig, argv, optind, log)
    ensures multiset(argv) == multiset(orig) && optind <= |argv| == |orig|
    ensures var mask := FullMask(cfg, orig);
            && (forall i :: 0 <= i < |orig| ==>
                  var p := Position(orig, mask, i);
                  p < |argv| && argv[p] == orig[i] && (p < optind <==> mask[i]))
            && (forall i, j :: 0 <= i < j < |orig| && mask[i] == mask[j] ==>
                  Position(orig, mask, i) < Position(orig, mask, j))
  {
    hide FullMask, Results;
    var mask := FullMask(cfg, orig);
    SelectIsPartition(orig, mask);
    assert |argv| == |multiset(argv)| == |multiset(orig)| == |orig|;
    hide Select, Position;
    forall i | 0 <= i < |orig|
      ensures var p := Position(orig, mask, i); p < |argv| && argv[p] == orig[i] && (p < optind <==> mask[i])
    {
      PositionHolds(orig, mask, i);
    }
    forall i, j | 0 <= i < j < |orig| && mask[i] == mask[j]
      ensures Position(orig, mask, i) < Position(orig, mask, j)
    {
      PositionsKeepOrder(orig, mask, i, j);
    }
  }

  lemma ScanStarts(cfg: Config, orig: seq<string>)
    requires 0 < |orig|
    ensures Scanned(cfg, orig, 1, "", orig[..1], [], [])
  {
    assert FullMask(cfg, orig)[..1] == [true] && orig[..1] == [orig[0]];
    assert FullMask(cfg, orig)[1..] == OptionMask(cfg, orig, 1, "");
    assert Select(orig[..1], [true], true) == [] + [orig[0]];
    assert Select(orig[..1], [true], false) == [] + [];
  }

  lemma ScanSkips(cfg: Config, orig: seq<string>, i: nat, options: seq<string>, skipped: seq<string>,
                  log: seq<(Outcome, Option<string>)>)
    requires Scanned(cfg, orig, i, "", options, skipped, log)
    requires i < |orig| && IsNonOption(cfg, orig[i])
    ensures Scanned(cfg, orig, i + 1, "", options, skipped + [orig[i]], log)
  {
    hide OptionStep, IsPlace;
    MaskAdvance(orig, FullMask(cfg, orig), i, 1, false, OptionMask(cfg, orig, i + 1, ""));
  }

  lemma ScanStartsOption(cfg: Config, orig: seq<string>, i: nat, options: seq<string>, skipped: seq<string>,
                         log: seq<(Outcome, Option<string>)>)
    requires Scanned(cfg, orig, i, "", options, skipped, log)
    requires i < |orig| && !IsNonOption(cfg, orig[i]) && orig[i] != "--"
    ensures Scanned(cfg, orig, i, FirstPlace(orig[i]), options, skipped, log)
  {
    hide OptionStep, Select;
  }

  lemma Regrouped<T>(a: seq<T>, b: seq<T>, c: seq<T>)
    ensures a + (b + c) == (a + b) + c
  {
  }

  /** Sorting goes on over entries that all belong to options. */
  lemma OptionsTaken(orig: seq<string>, mask: seq<bool>, i: nat, k: nat, ahead: seq<bool>,
                     options: seq<string>, skipped: seq<string>)
    requires |orig| == |mask| && i <= k <= |orig| && mask[i..] == Repeat(true, k - i) + ahead
    requires options == Select(orig[..i], mask[..i], true) && skipped == Select(orig[..i], mask[..i], false)
    ensures mask[k..] == ahead && |options + orig[i..k]| == |options| + (k - i)
    ensures options + orig[i..k] == Select(orig[..k], mask[..k], true) && skipped == Select(orig[..k], mask[..k], false)
  {
    hide Select, Repeat;
    MaskAdvance(orig, mask, i, k - i, true, ahead);
  }

  /** What lies ahead of an option: what it consumes, and the rest. */
  lemma OptionAhead(cfg: Config, orig: seq<string>, i: nat, place: string)
    requires i < |orig| && place != "" && IsPlace(cfg, orig[i], place)
    ensures var s := OptionStep(cfg, orig, i, place);
            && OptionMask(cfg, orig, i, place) == Repeat(true, s.optind - i) + OptionMask(cfg, orig, s.optind, s.place)
            && Results(cfg, orig, i, place) == [(s.outcome, s.arg)] + Results(cfg, orig, s.optind, s.place)
  {
    hide OptionStep, IsPlace;
  }

  lemma ScanTakesOption(cfg: Config, orig: seq<string>, i: nat, place: string, options: seq<string>,
                        skipped: seq<string>, log: seq<(Outcome, Option<string>)>)
    requires Scanned(cfg, orig, i, place, options, skipped, log) && place != ""
    ensures var s := OptionStep(cfg, orig, i, place);
            Scanned(cfg, orig, s.optind, s.place, options + orig[i..s.optind], skipped, log + [(s.outcome, s.arg)])
  {
    OptionAhead(cfg, orig, i, place);
    hide OptionStep, IsPlace, Select, OptionMask, Results, FullMask, Repeat;
    var s := OptionStep(cfg, orig, i, place);
    Regrouped(log, [(s.outcome, s.arg)], Results(cfg, orig, s.optind, s.place));
    OptionsTaken(orig, FullMask(cfg, orig), i, s.optind, OptionMask(cfg, orig, s.optind, s.place), options, skipped);
  }

  lemma ScanEnds(cfg: Config, orig: seq<string>, options: seq<string>, skipped: seq<string>,
                 log: seq<(Outcome, Option<string>)>)
    requires Scanned(cfg, orig, |orig|, "", options, skipped, log)
    ensures Partitioned(cfg, orig, options + skipped, |options|, log)
  {
    var mask := FullMask(cfg, orig);
    assert orig[..|orig|] == orig && mask[..|orig|] == mask;
  }

  lemma ScanTerminates(cfg: Config, orig: seq<string>, i: nat, options: seq<string>, skipped: seq<string>,
                       log: seq<(Outcome, Option<string>)>)
    requires Scanned(cfg, orig, i, "", options, skipped, log)
    requires i < |orig| && orig[i] == "--"
    ensures Partitioned(cfg, orig, options + [orig[i]] + (skipped + orig[i + 1..]), |options| + 1, log)
  {
    hide OptionStep, IsPlace, Select;
    var mask, n := FullMask(cfg, orig), |orig| - i - 1;
    assert !IsNonOption(cfg, orig[i]);
    assert Results(cfg, orig, i, "") == [] && mask[i..] == Repeat(true, 1) + Repeat(false, n);
    hide OptionMask, Results, FullMask;
    MaskAdvance(orig, mask, i, 1, true, Repeat(false, n));
    assert mask[i + 1..] == Repeat(false, n) + [];
    MaskAdvance(orig, mask, i + 1, n, false, []);
    assert orig[..i + 1 + n] == orig && mask[..i + 1 + n] == mask;
    assert orig[i..i + 1] == [orig[i]] && orig[i + 1..i + 1 + n] == orig[i + 1..];
  }

  lemma MoveToBehind<T>(p: seq<T>, x: seq<T>, y: seq<T>, o: seq<T>, i: nat)
    requires i < |o|
    ensures p + x + y + o[i..] == p + x + (y + [o[i]]) + o[i + 1..]
    ensures x == [] && y == [] ==> p + x + y + o[i..] == (p + [o[i]]) + x + o[i + 1..]
  {
    assert o[i..] == [o[i]] + o[i + 1..];
  }

  /** Consumed entries go behind the skipped ones, or to the front where nothing was skipped. */
  lemma OptionsMove<T>(front: seq<T>, skipped: seq<T>, behind: seq<T>, o: seq<T>, i: nat, k: nat)
    requires i <= k <= |o|
    ensures front + skipped + behind + o[i..] == front + skipped + (behind + o[i..k]) + o[k..]
    ensures front + (behind + o[i..k]) == (front + behind) + o[i..k]
    ensures skipped == [] && behind == [] ==>
              && front + skipped + behind + o[i..] == (front + o[i..k]) + skipped + behind + o[k..]
              && (front + o[i..k]) + behind == (front + behind) + o[i..k]
  {
    assert o[i..] == o[i..k] + o[k..];
  }

  /** The state that getopt_internal keeps between calls, with the argument vector it permutes. */
  class Parser {
    const cfg: Config
    const argv: array<string>
    var optind: nat
    var place: string
    var nonoptStart: int
    var nonoptEnd: int
    var optarg: Option<string>

    /** The vector as it was handed over. */
    ghost const orig: seq<string>
    /** What the scanned part of argv consists of: options, skipped non-options, options behind them. */
    ghost var front: seq<string>
    ghost var skipped: seq<string>
    ghost var behind: seq<string>
    /** The results returned so far. */
    ghost var log: seq<(Outcome, Option<string>)>

    ghost predicate Valid()
      reads this, argv
    {
      && argv.Length == |orig|
      && Scanned(cfg, orig, optind, place, front + behind, skipped, log)
      && argv[..] == front + skipped + behind + orig[optind..]
      && nonoptStart == (if skipped == [] then -1 else |front|)
      && (nonoptEnd == -1 || (nonoptEnd == |front| + |skipped| && skipped != []))
      && (nonoptEnd == -1 ==> behind == [])
      && (nonoptEnd != -1 && place == "" ==> behind != [])
      && (nonoptStart != -1 && place != "" ==> nonoptEnd != -1)
    }

    ghost predicate Done()
      reads this, argv
    {
      Partitioned(cfg, orig, argv[..], optind, log)
    }

    constructor (cfg: Config, argv: array<string>)
      requires argv.Length > 0
      ensures Valid() && this.cfg == cfg && this.argv == argv && orig == argv[..]
      ensures log == [] && optind == 1
    {
      this.cfg, this.argv := cfg, argv;
      optind, place, nonoptStart, nonoptEnd, optarg := 1, "", -1, -1, None;
      orig := argv[..];
      front, skipped, behind, log := argv[..1], [], [], [];
      new;
      ScanStarts(cfg, orig);
      assert front + behind == orig[..1];
    }

    /** permute_args on the skipped non-options and the options behind them. */
    method MoveSkippedBack(ghost rest: seq<string>)
      requires 0 <= nonoptStart < nonoptEnd < optind <= argv.Length
      requires nonoptStart == |front| && nonoptEnd == |front| + |skipped|
      requires optind == |front| + |skipped| + |behind|
      requires argv[..] == front + skipped + behind + rest
      modifies argv, `front, `behind
      ensures argv[..] == front + skipped + rest
      ensures front == old(front + behind) && behind == []
    {
      hide *;
      PermuteArgs(nonoptStart, nonoptEnd, optind, argv);
      ExchangedBlocks(front, skipped, behind, rest);
      front, behind := front + behind, [];
    }

    /** The token at optind is a non-option: it joins those already skipped. */
    method SkipNonOption()
      requires Valid() && place == "" && optind < argv.Length && IsNonOption(cfg, orig[optind])
      modifies `optind, `nonoptStart, `nonoptEnd, `front, `skipped, `behind, argv
      ensures Valid() && place == "" && optind == old(optind) + 1 && log == old(log)
    {
      hide FullMask, OptionMask, Select, Results;
      ScanSkips(cfg, orig, optind, front + behind, skipped, log);
      assert |front| + |behind| + |skipped| == optind;
      hide Scanned;
      ghost var i := optind;
      if nonoptStart == -1 {
        nonoptStart := optind;
      } else if nonoptEnd != -1 {
        MoveSkippedBack(orig[i..]);
        nonoptStart := optind - (nonoptEnd - nonoptStart);
        nonoptEnd := -1;
      }
      optind := optind + 1;
      skipped := skipped + [orig[i]];
      assert orig[i..] == [orig[i]] + orig[i + 1..];
      assert front + behind == old(front + behind);
    }

    /** The end of the vector. */
    method FinishAtEnd()
      requires Valid() && place == "" && optind == argv.Length
      modifies `optind, `nonoptStart, `nonoptEnd, `front, `behind, argv
      ensures Done()
    {
      ScanEnds(cfg, orig, front + behind, skipped, log);
      assert |front| + |behind| + |skipped| == optind;
      hide Scanned, Partitioned;
      if nonoptEnd != -1 {
        MoveSkippedBack([]);
        optind := optind - (nonoptEnd - nonoptStart);
      } else if nonoptStart != -1 {
        optind := nonoptStart;
      }
      nonoptStart, nonoptEnd := -1, -1;
      assert argv[..] == old(front + behind) + skipped;
    }

    /** The terminating "--" at optind. */
    method FinishAtTerminator()
      requires Valid() && place == "" && optind < argv.Length && orig[optind] == "--"
      modifies `optind, `nonoptStart, `nonoptEnd, `front, `behind, argv
      ensures Done()
    {
      hide FullMask, OptionMask, Partitioned, Select, Results;
      ghost var x, rest := orig[optind], orig[optind + 1..];
      ScanTerminates(cfg, orig, optind, front + behind, skipped, log);
      MoveToBehind(front, skipped, behind, orig, optind);
      assert front + (behind + [x]) == front + behind + [x];
      assert behind == [] ==> front + behind == front;
      assert |front| + |behind| + |skipped| == optind;
      hide Scanned;
      if nonoptStart != -1 && nonoptEnd == -1 {
        nonoptEnd := optind;
      }
      optind := optind + 1;
      if nonoptEnd != -1 {
        behind := behind + [x];
        MoveSkippedBack(rest);
        optind := optind - (nonoptEnd - nonoptStart);
      } else {
        front := front + [x];
      }
      nonoptStart, nonoptEnd := -1, -1;
      assert front + skipped + rest == front + (skipped + rest);
    }

    /** An option token at optind: note where the non-options end and step to its first letter. */
    method StartOption()
      requires Valid() && place == "" && optind < argv.Length
      requires !IsNonOption(cfg, orig[optind]) && orig[optind] != "--"
      modifies `place, `nonoptEnd
      ensures Valid() && optind < argv.Length && place == FirstPlace(orig[optind])
    {
      hide FullMask, OptionMask, Select, Results;
      ScanStartsOption(cfg, orig, optind, front + behind, skipped, log);
      assert |front| + |behind| + |skipped| == optind;
      assert argv[optind] == orig[optind];
      hide Scanned;
      if nonoptStart != -1 && nonoptEnd == -1 {
        nonoptEnd := optind;
      }
      place := argv[optind];
      if |place| > 1 {
        place := place[1..];
      }
    }

    /** parse_long_options on cur; behind the last entry stands a NULL. */
    method ParseLong(cur: string) returns (r: Outcome)
      requires optind < argv.Length == |orig| && argv[optind..] == orig[optind..] && optarg == None
      modifies `optind, `optarg
      ensures LongStep(cfg, orig, old(optind), cur) == Step(r, optarg, optind, "")
    {
      assert optind + 1 < argv.Length ==> argv[optind..][1] == orig[optind..][1];
      optind := optind + 1;
      var eq := IndexOf(cur, '=');
      var m := FindLong(cfg.longs, cur[..eq]);
      match m
      case Ambiguous => r := AmbiguousLong;
      case NoMatch => r := UnknownLong;
      case Found(k) =>
        var hasArg := cfg.longs[k].hasArg;
        if hasArg == NoArgument && eq < |cur| {
          return UnwantedArg(k);
        }
        if hasArg == RequiredArgument || hasArg == OptionalArgument {
          if eq < |cur| {
            optarg := Some(cur[eq + 1..]);
          } else if hasArg == RequiredArgument {
            optarg := if optind < argv.Length then Some(argv[optind]) else None;
            optind := optind + 1;
          }
        }
        if hasArg == RequiredArgument && optarg == None {
          optind := optind - 1;
          return MissingLongArg(k);
        }
        r := Long(k);
    }

    /** The part of getopt_internal behind the scanning update: one option of the current token. */
    method ParseOption() returns (r: Outcome)
      requires optind < argv.Length == |orig| && argv[optind..] == orig[optind..] && optarg == None
      requires IsPlace(cfg, orig[optind], place)
      modifies `optind, `optarg, `place
      ensures OptionStep(cfg, orig, old(optind), old(place)) == Step(r, optarg, optind, place)
    {
      assert argv[optind..][0] == orig[optind];
      assert optind + 1 < argv.Length ==> argv[optind..][1] == orig[optind..][1] && argv[optind + 1..] == orig[optind + 1..];
      if place != argv[optind] && place[0] == '-' {
        r := ParseLong(place[1..]);
        place := "";
        return;
      }
      var optchar := place[0];
      place := place[1..];
      var oli := IndexOf(cfg.shorts, optchar);
      if optchar == ':' || (optchar == '-' && place != "") || oli == |cfg.shorts| {
        if place == "" {
          optind := optind + 1;
        }
        return UnknownLetter(optchar);
      }
      if optchar == 'W' && CharAt(cfg.shorts, oli + 1, ';') {
        var cur := place;
        if place == "" {
          optind := optind + 1;
          if optind >= argv.Length {
            return MissingArg(optchar);
          }
          cur := argv[optind];
        }
        r := ParseLong(cur);
        place := "";
        return;
      }
      if !CharAt(cfg.shorts, oli + 1, ':') {
        if place == "" {
          optind := optind + 1;
        }
      } else {
        if place != "" {
          optarg := Some(place);
        } else if !CharAt(cfg.shorts, oli + 2, ':') {
          optind := optind + 1;
          if optind >= argv.Length {
            place := "";
            return MissingArg(optchar);
          }
          optarg := Some(argv[optind]);
        }
        place := "";
        optind := optind + 1;
      }
      r := Letter(optchar);
    }

    lemma Parts()
      ensures Valid() <==>
                && argv.Length == |orig|
                && Scanned(cfg, orig, optind, place, front + behind, skipped, log)
                && argv[..] == front + skipped + behind + orig[optind..]
                && nonoptStart == (if skipped == [] then -1 else |front|)
                && (nonoptEnd == -1 || (nonoptEnd == |front| + |skipped| && skipped != []))
                && (nonoptEnd == -1 ==> behind == [])
                && (nonoptEnd != -1 && place == "" ==> behind != [])
                && (nonoptStart != -1 && place != "" ==> nonoptEnd != -1)
    {
      hide Scanned;
    }

    /** While an option is being parsed, it and everything behind it stand where they stood. */
    lemma AtOption()
      requires Valid() && place != ""
      ensures optind < argv.Length == |orig| && argv[optind..] == orig[optind..] && IsPlace(cfg, orig[optind], place)
      ensures var s := OptionStep(cfg, orig, optind, place);
              && optind <= s.optind <= |orig| && s.outcome != Finished
              && (s.optind == optind ==> |s.place| < |place| && s.place != "")
    {
      hide FullMask, OptionMask, OptionStep, Select, Results;
    }

    /** ParseOption, with what it consumed sorted to the options. */
    method TakeOption() returns (r: Outcome)
      requires Valid() && place != "" && optarg == None
      modifies `optind, `optarg, `place, `front, `behind, `log
      ensures Valid() && log == old(log) + [(r, optarg)] && r != Finished
      ensures optind > old(optind) || (optind == old(optind) && place != "" && |place| < |old(place)|)
    {
      hide *;
      Parts();
      AtOption();
      ScanTakesOption(cfg, orig, optind, place, front + behind, skipped, log);
      ghost var i := optind;
      r := ParseOption();
      OptionsMove(front, skipped, behind, orig, i, optind);
      if skipped == [] {
        front := front + orig[i..optind];
      } else {
        behind := behind + orig[i..optind];
      }
      log := log + [(r, optarg)];
      Parts();
    }

    /**
      The scanning update: skips non-options up to the next option, or finishes. It
      leaves the position alone when the current token has letters left.
     */
    method FindOption() returns (found: bool)
      requires Valid() && optarg == None
      modifies `optind, `nonoptStart, `nonoptEnd, `place, `front, `skipped, `behind, argv
      ensures found ==> Valid() && place != "" && optind >= old(optind)
      ensures old(place) != "" ==> found && optind == old(optind) && place == old(place)
      ensures !found ==> Done()
    {
      hide FullMask, OptionMask, OptionStep, Partitioned, Select, Results;
      while place == ""
        invariant Valid() && optind >= old(optind)
        invariant old(place) != "" ==> optind == old(optind) && place == old(place)
        decreases argv.Length - optind, if place == "" then 1 else 0
      {
        if optind >= argv.Length {
          FinishAtEnd();
          return false;
        }
        var token := argv[optind];
        assert token == orig[optind];
        if IsNonOption(cfg, token) {
          SkipNonOption();
        } else if token == "--" {
          FinishAtTerminator();
          return false;
        } else {
          StartOption();
        }
      }
      found := true;
    }

    /** One call of getopt_long. */
    method Next() returns (r: Outcome)
      requires Valid()
      modifies this, argv
      ensures r == Finished ==> Done() && log == old(log)
      ensures r != Finished ==> Valid() && log == old(log) + [(r, optarg)]
      ensures r != Finished ==> optind > old(optind) || (optind == old(optind) && place != "")
      ensures r != Finished && optind == old(optind) && old(place) != "" ==> |place| < |old(place)|
    {
      hide Scanned, Partitioned;
      optarg := None;
      var found := FindOption();
      if !found {
        return Finished;
      }
      r := TakeOption();
    }
  }

  /** Calls getopt_long until it reports the end of the options. */
  method ParseAll(cfg: Config, argv: array<string>) returns (optind: nat, results: seq<(Outcome, Option<string>)>)
    requires argv.Length > 0
    modifies argv
    ensures Partitioned(cfg, old(argv[..]), argv[..], optind, results)
  {
    var p := new Parser(cfg, argv);
    results := [];
    while true
      invariant fresh(p) && p.cfg == cfg && p.argv == argv && p.orig == old(argv[..])
      invariant p.Valid() && p.log == results
      decreases argv.Length - p.optind, if p.place == "" then 1 else 0, |p.place|
    {
      var r := p.Next();
      if r == Finished {
        return p.optind, results;
      }
      results := results + [(r, p.optarg)];
    }
  }
}
