/**
  What getopt_long makes of a command line that was written down from a list of options
  and operands (librist-master/contrib/getopt-shim.c:195-514): exactly that list.
 */
module GetoptRoundTrip {
  import opened Wrappers
  import opened Getopt

  // ----- options and operands, and how they are written -----

  /** What the option letters say of a letter other than the dash. */
  datatype Kind = Unknown | Flag | Required | Optional | AsLong

  function KindOf(cfg: Config, c: char): Kind {
    var at := IndexOf(cfg.shorts, c);
    if c == ':' || at == |cfg.shorts| then Unknown
    else if c == 'W' && CharAt(cfg.shorts, at + 1, ';') then AsLong
    else if !CharAt(cfg.shorts, at + 1, ':') then Flag
    else if !CharAt(cfg.shorts, at + 2, ':') then Required
    else Optional
  }

  /** How an option comes with its argument: without one, in the same entry, or in the next one. */
  datatype Use = Bare | Joined(arg: string) | Separate(arg: string)

  /** A long option can follow two dashes, or the letter W in the same entry or the next one. */
  datatype Style = Dashes | ByW | BehindW

  /** An operand, a short option at the end of a cluster of others, or a long option under a name or an abbreviation. */
  datatype Item =
    | Operand(text: string)
    | Short(flags: string, c: char, use: Use)
    | LongName(style: Style, name: string, use: Use)

  /** Letters that take no argument, known or not. */
  predicate AreFlags(cfg: Config, flags: string) {
    forall j :: 0 <= j < |flags| ==> flags[j] != '-' && KindOf(cfg, flags[j]) in {Unknown, Flag}
  }

  /** Whether a long option of this name needs an argument. */
  predicate NeedsArg(cfg: Config, name: string) {
    var m := LongMatch(cfg.longs, name);
    m.Found? && cfg.longs[m.index].hasArg == RequiredArgument
  }

  /** An option without the argument it needs. */
  predicate Lacks(cfg: Config, item: Item) {
    match item
    case Operand(_) => false
    case Short(_, c, use) => use.Bare? && KindOf(cfg, c) in {Required, AsLong}
    case LongName(_, name, use) => use.Bare? && NeedsArg(cfg, name)
  }

  /** Every option comes with its argument in a way it allows, or without any. */
  predicate WellWritten(cfg: Config, item: Item) {
    match item
    case Operand(text) => text == "" || text[0] != '-' || (text == "-" && '-' !in cfg.shorts)
    case Short(flags, c, use) =>
      && AreFlags(cfg, flags) && c != '-'
      && (match KindOf(cfg, c)
          case Required => use.Bare? || use.Separate? || (use.Joined? && use.arg != "")
          case Optional => use.Bare? || (use.Joined? && use.arg != "")
          case _ => use.Bare?)
    case LongName(style, name, use) =>
      && name != "" && '=' !in name
      && (style != Dashes ==> KindOf(cfg, 'W') == AsLong)
      && (use.Separate? ==> NeedsArg(cfg, name))
  }

  function LongText(name: string, use: Use): string {
    if use.Joined? then name + "=" + use.arg else name
  }

  function Written(item: Item): (w: seq<string>)
    ensures |w| > 0
  {
    match item
    case Operand(text) => [text]
    case Short(flags, c, use) =>
      (match use
       case Bare => ["-" + flags + [c]]
       case Joined(arg) => ["-" + flags + ([c] + arg)]
       case Separate(arg) => ["-" + flags + [c], arg])
    case LongName(style, name, use) =>
      var text := LongText(name, use);
      (match style
       case Dashes => ["--" + text]
       case ByW => ["-W" + text]
       case BehindW => ["-W", text]) + (if use.Separate? then [use.arg] else [])
  }

  /** What is returned for a letter without an argument. */
  function FlagResult(cfg: Config, c: char): (Outcome, Option<string>) {
    (if KindOf(cfg, c) == Unknown then UnknownLetter(c) else Letter(c), None)
  }

  function FlagResults(cfg: Config, flags: string): (r: seq<(Outcome, Option<string>)>)
    ensures |r| == |flags|
  {
    if flags == "" then [] else [FlagResult(cfg, flags[0])] + FlagResults(cfg, flags[1..])
  }

  function ArgOf(use: Use): Option<string> {
    if use.Bare? then None else Some(use.arg)
  }

  /** What is returned for the last option of a cluster. */
  function LastResult(cfg: Config, item: Item): (Outcome, Option<string>)
    requires item.Short?
  {
    if Lacks(cfg, item) then (MissingArg(item.c), None)
    else if item.use.Bare? && KindOf(cfg, item.c) != Optional then FlagResult(cfg, item.c)
    else (Letter(item.c), ArgOf(item.use))
  }

  /** What is to be returned for an item: its options with their arguments, or the errors it has. */
  function Meant(cfg: Config, item: Item): seq<(Outcome, Option<string>)> {
    match item
    case Operand(_) => []
    case Short(flags, c, use) =>
      FlagResults(cfg, flags) + [LastResult(cfg, item)]
    case LongName(_, name, use) =>
      match LongMatch(cfg.longs, name)
      case NoMatch => [(UnknownLong, None)]
      case Ambiguous => [(AmbiguousLong, None)]
      case Found(k) =>
        if Lacks(cfg, item) then [(MissingLongArg(k), None)]
        else if use.Joined? && cfg.longs[k].hasArg == NoArgument then [(UnwantedArg(k), None)]
        else [(Long(k), ArgOf(use))]
  }

  /** A name that is given in full is found, even where it also abbreviates others. */
  lemma FullNameFound(longs: seq<LongOption>, k: nat)
    requires k < |longs| && forall j :: 0 <= j < k ==> longs[j].name != longs[k].name
    ensures LongMatch(longs, longs[k].name) == Found(k)
  {
    assert longs[k].name <= longs[k].name;
  }

  /** Two options that differ in what they take or in what they return. */
  predicate Differ(x: LongOption, y: LongOption) {
    x.hasArg != y.hasArg || x.flag != y.flag || x.val != y.val
  }

  /** The k-th option alone has a name that begins like this. */
  predicate OnlyOne(longs: seq<LongOption>, name: string, k: nat) {
    forall j :: 0 <= j < |longs| ==> (name <= longs[j].name <==> j == k)
  }

  /** An abbreviation of no option is unknown, one of a single option is found, and one of options that differ is ambiguous. */
  lemma AbbreviationMeaning(longs: seq<LongOption>, name: string)
    requires forall j :: 0 <= j < |longs| ==> longs[j].name != name
    ensures LongMatch(longs, name) == NoMatch <==> forall j :: 0 <= j < |longs| ==> !(name <= longs[j].name)
    ensures forall k :: 0 <= k < |longs| && OnlyOne(longs, name, k) ==> LongMatch(longs, name) == Found(k)
    ensures LongMatch(longs, name) == Ambiguous
            <==> exists i, j :: 0 <= i < |longs| && 0 <= j < |longs| && name <= longs[i].name && name <= longs[j].name
                                && Differ(longs[i], longs[j])
  {
    forall k | 0 <= k < |longs| && OnlyOne(longs, name, k)
      ensures LongMatch(longs, name) == Found(k)
    {
      assert name <= longs[k].name;
    }
  }

  // ----- single steps -----

  lemma FirstAt(s: string, c: char)
    ensures IndexOf(s, c) < |s| <==> c in s
  {
  }

  /** A letter without an argument takes itself, and the entry if it is the last one. */
  lemma FlagStep(cfg: Config, argv: seq<string>, i: nat, place: string)
    requires i < |argv| && IsPlace(cfg, argv[i], place) && place[0] != '-' && KindOf(cfg, place[0]) in {Unknown, Flag}
    ensures var r := FlagResult(cfg, place[0]);
            OptionStep(cfg, argv, i, place) == Step(r.0, r.1, if |place| == 1 then i + 1 else i, place[1..])
  {
    FirstAt(cfg.shorts, place[0]);
    hide IndexOf, LongStep;
  }

  /** The part of its entry that the last option of a cluster takes. */
  function LastPart(c: char, use: Use): (rest: string)
    ensures rest != "" && rest[0] == c
  {
    if use.Joined? then [c] + use.arg else [c]
  }

  /** A letter with an argument takes the rest of its entry, or the next entry; there may be none. */
  lemma ArgStep(cfg: Config, argv: seq<string>, i: nat, c: char, use: Use)
    requires i < |argv| && c != '-'
    requires match KindOf(cfg, c)
             case Required => || (use.Joined? && use.arg != "")
                              || (use.Separate? && i + 1 < |argv| && argv[i + 1] == use.arg)
                              || (use.Bare? && i + 1 == |argv|)
             case Optional => use.Bare? || (use.Joined? && use.arg != "")
             case AsLong => use.Bare? && i + 1 == |argv|
             case _ => false
    ensures IsPlace(cfg, argv[i], LastPart(c, use)) ==>
              OptionStep(cfg, argv, i, LastPart(c, use))
              == if use.Bare? && KindOf(cfg, c) != Optional then Step(MissingArg(c), None, i + 1, "")
                 else Step(Letter(c), ArgOf(use), if use.Separate? then i + 2 else i + 1, "")
  {
    FirstAt(cfg.shorts, c);
    hide IndexOf, LongStep;
    assert use.Joined? ==> ([c] + use.arg)[1..] == use.arg;
  }

  lemma NameBefore(name: string, arg: string)
    requires '=' !in name
    ensures IndexOf(name, '=') == |name| && IndexOf(name + "=" + arg, '=') == |name|
    ensures (name + "=" + arg)[..|name|] == name && (name + "=" + arg)[|name| + 1..] == arg
  {
    FirstAt(name, '=');
    var text := name + "=" + arg;
    assert text[|name|] == '=' && forall j :: 0 <= j < |name| ==> text[j] == name[j];
    assert IndexOf(text, '=') >= |name|;
  }

  lemma TextParts(name: string, use: Use)
    requires '=' !in name
    ensures var text := LongText(name, use);
            var eq := IndexOf(text, '=');
            && text[..eq] == name && (eq < |text| <==> use.Joined?) && (use.Joined? ==> text[eq + 1..] == use.arg)
  {
    NameBefore(name, if use.Joined? then use.arg else "");
    hide IndexOf;
    if !use.Joined? {
      assert name[..|name|] == name;
    }
  }

  /** A long option, with its argument where it has one. */
  lemma LongNameStep(cfg: Config, argv: seq<string>, i: nat, style: Style, name: string, use: Use)
    requires i < |argv| && WellWritten(cfg, LongName(style, name, use))
    requires use.Separate? ==> i + 1 < |argv| && argv[i + 1] == use.arg
    requires Lacks(cfg, LongName(style, name, use)) ==> i + 1 == |argv|
    ensures var r := Meant(cfg, LongName(style, name, use));
            |r| == 1 && LongStep(cfg, argv, i, LongText(name, use))
                        == Step(r[0].0, r[0].1, if use.Separate? then i + 2 else i + 1, "")
  {
    TextParts(name, use);
    hide IndexOf, LongMatch, LongText, KindOf, FlagResults, AreFlags, LastResult;
  }

  // ----- scanning one item -----

  lemma AtPlace(cfg: Config, orig: seq<string>, i: nat, place: string, options: seq<string>, skipped: seq<string>,
                log: seq<(Outcome, Option<string>)>)
    requires Scanned(cfg, orig, i, place, options, skipped, log) && place != ""
    ensures i < |orig| && IsPlace(cfg, orig[i], place)
  {
  }

  /** The scan has passed a cluster of letters that take nothing. */
  lemma {:induction false} FlagsScanned(cfg: Config, orig: seq<string>, i: nat, flags: string, rest: string,
                                        options: seq<string>, skipped: seq<string>, log: seq<(Outcome, Option<string>)>)
    requires rest != "" && AreFlags(cfg, flags) && Scanned(cfg, orig, i, flags + rest, options, skipped, log)
    ensures Scanned(cfg, orig, i, rest, options, skipped, log + FlagResults(cfg, flags))
    decreases |flags|
  {
    hide Scanned;
    if flags == "" {
      assert flags + rest == rest && log + [] == log;
    } else {
      AtPlace(cfg, orig, i, flags + rest, options, skipped, log);
      FlagStep(cfg, orig, i, flags + rest);
      ScanTakesOption(cfg, orig, i, flags + rest, options, skipped, log);
      hide KindOf, OptionStep, IsPlace;
      var r := FlagResult(cfg, flags[0]);
      assert (flags + rest)[1..] == flags[1..] + rest;
      assert options + orig[i..i] == options;
      FlagsScanned(cfg, orig, i, flags[1..], rest, options, skipped, log + [r]);
      assert (log + [r]) + FlagResults(cfg, flags[1..]) == log + FlagResults(cfg, flags);
    }
  }

  /** The scan after an item: an operand joins the skipped entries, anything else the options. */
  ghost predicate ScannedItem(cfg: Config, orig: seq<string>, i: nat, item: Item, options: seq<string>, skipped: seq<string>,
                              log: seq<(Outcome, Option<string>)>)
  {
    var w := Written(item);
    if item.Operand? then Scanned(cfg, orig, i + |w|, "", options, skipped + w, log)
    else Scanned(cfg, orig, i + |w|, "", options + w, skipped, log + Meant(cfg, item))
  }

  lemma TokenScanned(cfg: Config, orig: seq<string>, i: nat, place: string, options: seq<string>, skipped: seq<string>,
                     log: seq<(Outcome, Option<string>)>)
    requires Scanned(cfg, orig, i, "", options, skipped, log) && i < |orig|
    requires place != "" && place != "-" && orig[i] == "-" + place
    ensures Scanned(cfg, orig, i, place, options, skipped, log) && IsPlace(cfg, orig[i], place) && place != orig[i]
  {
    assert orig[i][1..] == place;
    ScanStartsOption(cfg, orig, i, options, skipped, log);
    AtPlace(cfg, orig, i, place, options, skipped, log);
    hide Scanned;
  }

  lemma NotADash(cfg: Config, flags: string, c: char, rest: string)
    requires AreFlags(cfg, flags) && c != '-' && rest != "" && rest[0] == c
    ensures flags + rest != "" && flags + rest != "-"
  {
    hide KindOf;
    assert (flags + rest)[0] == if flags == "" then c else flags[0];
  }

  lemma ShortStarts(cfg: Config, item: Item)
    requires item.Short? && WellWritten(cfg, item)
    ensures AreFlags(cfg, item.flags)
    ensures var place := item.flags + LastPart(item.c, item.use);
            place != "" && place != "-" && Written(item)[0] == "-" + place
    ensures |Written(item)| == (if item.use.Separate? then 2 else 1) && (Lacks(cfg, item) ==> item.use.Bare?)
    ensures item.use.Separate? ==> Written(item)[1] == item.use.arg
  {
    hide KindOf;
    NotADash(cfg, item.flags, item.c, LastPart(item.c, item.use));
    Regrouped("-", item.flags, [item.c]);
    Regrouped("-", item.flags, LastPart(item.c, item.use));
    hide AreFlags;
  }

  /** The last option of a cluster. */
  lemma LastStep(cfg: Config, argv: seq<string>, i: nat, item: Item)
    requires i < |argv| && item.Short? && WellWritten(cfg, item) && IsPlace(cfg, argv[i], LastPart(item.c, item.use))
    requires item.use.Separate? ==> i + 1 < |argv| && argv[i + 1] == item.use.arg
    requires Lacks(cfg, item) ==> i + 1 == |argv|
    ensures var r := LastResult(cfg, item);
            OptionStep(cfg, argv, i, LastPart(item.c, item.use))
            == Step(r.0, r.1, if item.use.Separate? then i + 2 else i + 1, "")
    ensures Meant(cfg, item) == FlagResults(cfg, item.flags) + [LastResult(cfg, item)]
  {
    if KindOf(cfg, item.c) in {Unknown, Flag} {
      FlagStep(cfg, argv, i, LastPart(item.c, item.use));
    } else {
      ArgStep(cfg, argv, i, item.c, item.use);
    }
    hide KindOf, OptionStep, IsPlace;
  }

  lemma OptionScanned(cfg: Config, orig: seq<string>, i: nat, item: Item, options: seq<string>, skipped: seq<string>,
                      log: seq<(Outcome, Option<string>)>)
    requires !item.Operand?
    requires Scanned(cfg, orig, i + |Written(item)|, "", options + Written(item), skipped, log + Meant(cfg, item))
    ensures ScannedItem(cfg, orig, i, item, options, skipped, log)
  {
    hide Scanned;
  }

  lemma EntriesHold(orig: seq<string>, i: nat, w: seq<string>)
    requires i + |w| <= |orig| && orig[i..i + |w|] == w
    ensures forall j :: 0 <= j < |w| ==> orig[i + j] == w[j]
  {
  }

  lemma ShortScanned(cfg: Config, orig: seq<string>, i: nat, item: Item, options: seq<string>, skipped: seq<string>,
                     log: seq<(Outcome, Option<string>)>)
    requires Scanned(cfg, orig, i, "", options, skipped, log) && item.Short? && WellWritten(cfg, item)
    requires i + |Written(item)| <= |orig| && orig[i..i + |Written(item)|] == Written(item)
    requires Lacks(cfg, item) ==> i + |Written(item)| == |orig|
    ensures ScannedItem(cfg, orig, i, item, options, skipped, log)
  {
    hide *;
    ShortStarts(cfg, item);
    EntriesHold(orig, i, Written(item));
    var w, rest, log' := Written(item), LastPart(item.c, item.use), log + FlagResults(cfg, item.flags);
    assert orig[i + 0] == w[0];
    TokenScanned(cfg, orig, i, item.flags + rest, options, skipped, log);
    FlagsScanned(cfg, orig, i, item.flags, rest, options, skipped, log);
    AtPlace(cfg, orig, i, rest, options, skipped, log');
    LastStep(cfg, orig, i, item);
    ScanTakesOption(cfg, orig, i, rest, options, skipped, log');
    Regrouped(log, FlagResults(cfg, item.flags), [LastResult(cfg, item)]);
    OptionScanned(cfg, orig, i, item, options, skipped, log);
  }

  /** A long option is taken at its dashes, or at the letter W. */
  lemma LongPlace(cfg: Config, argv: seq<string>, i: nat, place: string)
    requires i < |argv| && IsPlace(cfg, argv[i], place) && place != argv[i]
    requires place[0] == '-' || (place[0] == 'W' && KindOf(cfg, 'W') == AsLong && (|place| == 1 ==> i + 1 < |argv|))
    ensures OptionStep(cfg, argv, i, place)
            == if |place| == 1 && place[0] == 'W' then LongStep(cfg, argv, i + 1, argv[i + 1])
               else LongStep(cfg, argv, i, place[1..])
  {
    FirstAt(cfg.shorts, 'W');
    hide LongStep;
  }

  /** What stands behind the dash of a long option, and the entry its name is in. */
  function LongPart(item: Item): string
    requires item.LongName?
  {
    var text := LongText(item.name, item.use);
    match item.style
    case Dashes => "-" + text
    case ByW => "W" + text
    case BehindW => "W"
  }

  lemma LongStarts(cfg: Config, item: Item)
    requires item.LongName? && WellWritten(cfg, item)
    ensures var place, w := LongPart(item), Written(item);
            && place != "" && place != "-" && w[0] == "-" + place
            && place[1..] == (if item.style.BehindW? then "" else LongText(item.name, item.use))
            && place[0] == (if item.style.Dashes? then '-' else 'W') && (|place| == 1 <==> item.style.BehindW?)
            && (item.style.Dashes? || KindOf(cfg, 'W') == AsLong) && (Lacks(cfg, item) ==> item.use.Bare?)
    ensures var w, n := Written(item), if item.style.BehindW? then 1 else 0;
            && |w| == n + 1 + (if item.use.Separate? then 1 else 0)
            && (n == 1 ==> w[1] == LongText(item.name, item.use))
            && (item.use.Separate? ==> w[n + 1] == item.use.arg)
  {
    hide KindOf;
    var text := LongText(item.name, item.use);
    assert text != "" && "--" + text == "-" + ("-" + text) && "-W" + text == "-" + ("W" + text);
  }

  lemma LongScanned(cfg: Config, orig: seq<string>, i: nat, item: Item, options: seq<string>, skipped: seq<string>,
                    log: seq<(Outcome, Option<string>)>)
    requires Scanned(cfg, orig, i, "", options, skipped, log) && item.LongName? && WellWritten(cfg, item)
    requires i + |Written(item)| <= |orig| && orig[i..i + |Written(item)|] == Written(item)
    requires Lacks(cfg, item) ==> i + |Written(item)| == |orig|
    ensures ScannedItem(cfg, orig, i, item, options, skipped, log)
  {
    hide *;
    LongStarts(cfg, item);
    EntriesHold(orig, i, Written(item));
    var w, n := Written(item), if item.style.BehindW? then 1 else 0;
    assert orig[i + 0] == w[0];
    TokenScanned(cfg, orig, i, LongPart(item), options, skipped, log);
    LongNameStep(cfg, orig, i + n, item.style, item.name, item.use);
    LongPlace(cfg, orig, i, LongPart(item));
    ScanTakesOption(cfg, orig, i, LongPart(item), options, skipped, log);
    assert Meant(cfg, item) == [Meant(cfg, item)[0]];
    OptionScanned(cfg, orig, i, item, options, skipped, log);
  }

  lemma ItemScanned(cfg: Config, orig: seq<string>, i: nat, item: Item, options: seq<string>, skipped: seq<string>,
                    log: seq<(Outcome, Option<string>)>)
    requires Scanned(cfg, orig, i, "", options, skipped, log) && WellWritten(cfg, item)
    requires i + |Written(item)| <= |orig| && orig[i..i + |Written(item)|] == Written(item)
    requires Lacks(cfg, item) ==> i + |Written(item)| == |orig|
    ensures ScannedItem(cfg, orig, i, item, options, skipped, log)
  {
    hide Scanned;
    match item
    case Operand(text) =>
      assert orig[i] == Written(item)[0];
      ScanSkips(cfg, orig, i, options, skipped, log);
    case Short(_, _, _) =>
      ShortScanned(cfg, orig, i, item, options, skipped, log);
    case LongName(_, _, _) =>
      LongScanned(cfg, orig, i, item, options, skipped, log);
  }

  // ----- whole command lines -----

  function WrittenAll(items: seq<Item>): seq<string> {
    if items == [] then [] else WrittenAll(items[..|items| - 1]) + Written(items[|items| - 1])
  }

  /** The entries of operands, if operands is true, or of everything else. */
  function Entries(items: seq<Item>, operands: bool): seq<string> {
    if items == [] then []
    else
      var last := items[|items| - 1];
      Entries(items[..|items| - 1], operands) + (if last.Operand? == operands then Written(last) else [])
  }

  function MeantAll(cfg: Config, items: seq<Item>): seq<(Outcome, Option<string>)> {
    if items == [] then [] else MeantAll(cfg, items[..|items| - 1]) + Meant(cfg, items[|items| - 1])
  }

  /** Only the last entry of the line can lack its argument: elsewhere the next entry would become it. */
  predicate AllWellWritten(cfg: Config, items: seq<Item>, last: bool) {
    forall k :: 0 <= k < |items| ==> WellWritten(cfg, items[k]) && (Lacks(cfg, items[k]) ==> last && k == |items| - 1)
  }

  lemma NothingMeant(cfg: Config, item: Item)
    ensures item.Operand? ==> Meant(cfg, item) == []
  {
  }

  /** The line up to its last item, and what that one adds. */
  lemma LastItem(cfg: Config, prog: string, items: seq<Item>, tail: seq<string>)
    requires items != []
    ensures var init, last := items[..|items| - 1], items[|items| - 1];
            var orig, i, w := [prog] + WrittenAll(items) + tail, 1 + |WrittenAll(init)|, Written(last);
            && orig == [prog] + WrittenAll(init) + (w + tail) && 1 + |WrittenAll(items)| == i + |w| <= |orig|
            && orig[i..i + |w|] == w
            && (if last.Operand? then
                  Entries(items, false) == Entries(init, false) && Entries(items, true) == Entries(init, true) + w
                else
                  && [prog] + Entries(items, false) == [prog] + Entries(init, false) + w
                  && Entries(items, true) == Entries(init, true))
            && MeantAll(cfg, items) == (if last.Operand? then MeantAll(cfg, init) else MeantAll(cfg, init) + Meant(cfg, last))
  {
    NothingMeant(cfg, items[|items| - 1]);
    hide Written, Meant;
  }

  lemma LineStarts(cfg: Config, prog: string, tail: seq<string>)
    ensures [prog] + WrittenAll([]) + tail == [prog] + tail && |WrittenAll([])| == 0
    ensures [prog] + Entries([], false) == [prog] && Entries([], true) == [] && MeantAll(cfg, []) == []
  {
  }

  lemma {:induction false} ItemsScanned(cfg: Config, prog: string, items: seq<Item>, tail: seq<string>)
    requires AllWellWritten(cfg, items, tail == [])
    ensures Scanned(cfg, [prog] + WrittenAll(items) + tail, 1 + |WrittenAll(items)|, "",
                    [prog] + Entries(items, false), Entries(items, true), MeantAll(cfg, items))
  {
    hide WellWritten, Written, Meant, Scanned, Lacks, WrittenAll, Entries, MeantAll;
    var orig := [prog] + WrittenAll(items) + tail;
    if items == [] {
      LineStarts(cfg, prog, tail);
      ScanStarts(cfg, orig);
      assert orig[..1] == [prog];
    } else {
      var init, last := items[..|items| - 1], items[|items| - 1];
      ItemsScanned(cfg, prog, init, Written(last) + tail);
      LastItem(cfg, prog, items, tail);
      ItemScanned(cfg, orig, 1 + |WrittenAll(init)|, last, [prog] + Entries(init, false), Entries(init, true), MeantAll(cfg, init));
    }
  }

  /** How a command line ends: with its last item, or with "--" and whatever stands behind it. */
  datatype Ending = Plainly | Dashed(rest: seq<string>)

  function CommandLine(prog: string, items: seq<Item>, ending: Ending): (line: seq<string>)
    ensures |line| > 0
  {
    [prog] + WrittenAll(items) + (if ending.Plainly? then [] else ["--"] + ending.rest)
  }

  function Options(prog: string, items: seq<Item>, ending: Ending): seq<string> {
    [prog] + Entries(items, false) + (if ending.Plainly? then [] else ["--"])
  }

  /** The options first, each with its argument, and the operands last. */
  function Sorted(prog: string, items: seq<Item>, ending: Ending): seq<string> {
    Options(prog, items, ending) + (Entries(items, true) + (if ending.Plainly? then [] else ending.rest))
  }

  /** A whole run on a command line returns what was written down. */
  lemma WrittenIsRead(cfg: Config, prog: string, items: seq<Item>, ending: Ending)
    requires AllWellWritten(cfg, items, ending.Plainly?)
    ensures Partitioned(cfg, CommandLine(prog, items, ending), Sorted(prog, items, ending), |Options(prog, items, ending)|,
                        MeantAll(cfg, items))
  {
    hide AllWellWritten, Scanned, Partitioned, WrittenAll, Entries, MeantAll;
    var tail := if ending.Plainly? then [] else ["--"] + ending.rest;
    var orig, i := CommandLine(prog, items, ending), 1 + |WrittenAll(items)|;
    var options, operands := [prog] + Entries(items, false), Entries(items, true);
    ItemsScanned(cfg, prog, items, tail);
    if ending.Plainly? {
      assert i == |orig| && options + [] == options && operands + [] == operands;
      ScanEnds(cfg, orig, options, operands, MeantAll(cfg, items));
    } else {
      assert orig[i] == "--" && orig[i + 1..] == ending.rest;
      ScanTerminates(cfg, orig, i, options, operands, MeantAll(cfg, items));
    }
  }

  /** Written down and parsed, options come back with their arguments in order, and operands stand behind optind. */
  method RoundTrip(cfg: Config, prog: string, items: seq<Item>, ending: Ending)
    returns (argv: array<string>, optind: nat, results: seq<(Outcome, Option<string>)>)
    requires AllWellWritten(cfg, items, ending.Plainly?)
    ensures argv[..] == Sorted(prog, items, ending) && optind == |Options(prog, items, ending)|
    ensures results == MeantAll(cfg, items)
  {
    var line := CommandLine(prog, items, ending);
    argv := new string[|line|](j requires 0 <= j < |line| => line[j]);
    assert argv[..] == line;
    optind, results := ParseAll(cfg, argv);
    WrittenIsRead(cfg, prog, items, ending);
  }
}
