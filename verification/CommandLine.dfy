/**
 What a command line says: which part every argument plays, and what it adds to the recorded options and
 to the leftovers. Nothing here depends on how the parser finds out.
 */
module CommandLines {
  import opened Wrappers

  /** `key` is the storage key, a hash of the option's names. */
  datatype Details = Details(shortName: string, longNames: seq<string>, key: nat,
                             hasDefault: bool, defaultValue: string,
                             hasImplicit: bool, implicitValue: string, isContainer: bool)
  {
    function Essential(): string {
      if longNames == [] then shortName else longNames[0]
    }
  }

  datatype ArguDesc = ArguDesc(name: string, grouping: bool, setValue: bool, value: string)

  datatype Config = Config(options: map<string, Details>, positional: seq<string>, allowUnrecognised: bool,
                           tokenise: string -> Option<ArguDesc>, accepts: (nat, string) -> bool)

  datatype Error = InvalidSyntax | NoSuchOption | MissingArgument | IncorrectType

  type KeyValue = (string, string)

  datatype Role = Program | Flag | ValueOf | Positional(key: string) | Separator | Leftover

  /** What an argument, or a letter of a group, adds: recorded entries and leftovers. */
  datatype Share = Share(entries: seq<KeyValue>, left: seq<string>)

  const Nothing := Share([], [])

  function Sum(shares: seq<Share>): Share {
    if shares == [] then Nothing
    else
      var before, last := Sum(shares[..|shares| - 1]), shares[|shares| - 1];
      Share(before.entries + last.entries, before.left + last.left)
  }

  // ---- flags ----------------------------------------------------------------------------------

  /** An option given without a value: its implicit value if it has one, else the argument it takes. */
  predicate ReadsAlone(d: Details, taken: Option<string>, e: KeyValue) {
    e.0 == d.Essential() &&
    if d.hasImplicit then taken == None && e.1 == d.implicitValue else taken.Some? && e.1 == taken.value
  }

  /**
   Letter `j` of a group of short options, of which letter `stop` is the first that is a known option
   without an implicit value, or the last letter: up to there each letter is an option with its implicit
   value, or is unknown and left over; letter `stop` takes the rest of the group, or, as the last letter,
   is read like an option of its own; nothing is read behind it.
   */
  predicate ReadsLetter(cfg: Config, s: string, j: nat, stop: nat, taken: Option<string>, share: Share)
    requires j < |s|
  {
    var name := [s[j]];
    if stop < j then share == Nothing
    else if name !in cfg.options then
      cfg.allowUnrecognised && share == Share([], ["-" + name]) && (j == stop ==> taken == None)
    else
      var d := cfg.options[name];
      && share.left == [] && |share.entries| == 1
      && (j == stop == |s| - 1 ==> ReadsAlone(d, taken, share.entries[0]))
      && (j == stop < |s| - 1 ==>
            !d.hasImplicit && taken == None && share.entries[0] == (d.Essential(), s[j + 1..]))
      && (j < stop ==> d.hasImplicit && share.entries[0] == (d.Essential(), d.implicitValue))
  }

  predicate ReadsLetters(cfg: Config, s: string, stop: nat, taken: Option<string>, letters: seq<Share>) {
    && |letters| == |s| && (s == "" ==> taken == None) && (s != "" ==> stop < |s|)
    && (s != "" && stop < |s| - 1 ==> [s[stop]] in cfg.options)
    && forall j :: 0 <= j < |s| ==> ReadsLetter(cfg, s, j, stop, taken, letters[j])
  }

  /** What the tokenised argument `arg` adds, if `taken` is the argument behind it that it takes as a value. */
  ghost predicate ReadsFlag(cfg: Config, arg: string, desc: ArguDesc, taken: Option<string>, share: Share) {
    if desc.grouping then
      exists stop: nat, letters :: ReadsLetters(cfg, desc.name, stop, taken, letters) && share == Sum(letters)
    else if desc.name == "" then share == Nothing && taken == None
    else if desc.name !in cfg.options then cfg.allowUnrecognised && share == Share([], [arg]) && taken == None
    else
      && share.left == [] && |share.entries| == 1
      && if desc.setValue
         then taken == None && share.entries[0] == (cfg.options[desc.name].Essential(), desc.value)
         else ReadsAlone(cfg.options[desc.name], taken, share.entries[0])
  }

  // ---- positional arguments -------------------------------------------------------------------

  /** A positional option still takes an argument: it is a container, or nothing was recorded for it. */
  predicate Open(cfg: Config, entries: seq<KeyValue>, p: nat)
    requires p < |cfg.positional|
  {
    cfg.positional[p] in cfg.options ==>
      var d := cfg.options[cfg.positional[p]];
      d.isContainer || forall i :: 0 <= i < |entries| ==> entries[i].0 != d.Essential()
  }

  predicate FirstOpen(cfg: Config, entries: seq<KeyValue>, p: nat) {
    && p <= |cfg.positional|
    && (p < |cfg.positional| ==> Open(cfg, entries, p))
    && forall q :: 0 <= q < p ==> !Open(cfg, entries, q)
  }

  ghost predicate FirstOpenIs(cfg: Config, entries: seq<KeyValue>, key: string) {
    exists p: nat :: FirstOpen(cfg, entries, p) && p < |cfg.positional| && cfg.positional[p] in cfg.options &&
                cfg.options[cfg.positional[p]].Essential() == key
  }

  /** In front of the separator an argument is no flag if the tokeniser does not match it and it does not look like one. */
  predicate NoFlag(cfg: Config, arg: string) {
    cfg.tokenise(arg) == None && (2 <= |arg| && arg[0] == '-' ==> cfg.allowUnrecognised)
  }

  // ---- command lines --------------------------------------------------------------------------

  /** The value argument `i` takes from the argument behind it. */
  function TakenBy(args: seq<string>, roles: seq<Role>, i: nat): Option<string>
    requires |roles| == |args|
  {
    if i + 1 < |args| && roles[i + 1].ValueOf? then Some(args[i + 1]) else None
  }

  ghost predicate ReadsArgument(cfg: Config, args: seq<string>, roles: seq<Role>, shares: seq<Share>, sep: nat, i: nat)
    requires i < |args| == |roles| == |shares|
  {
    && (roles[i] == Program <==> i == 0)
    && (roles[i] == Separator <==> i == sep)
    && (i == sep ==> args[i] == "--")
    && (0 < i < sep && roles[i] != ValueOf ==> args[i] != "--")
    && match roles[i]
       case Program => shares[i] == Nothing
       case Separator => shares[i] == Nothing
       case ValueOf => shares[i] == Nothing && 0 < i && roles[i - 1] == Flag
       case Flag =>
         && i < sep && cfg.tokenise(args[i]).Some?
         && ReadsFlag(cfg, args[i], cfg.tokenise(args[i]).value, TakenBy(args, roles, i), shares[i])
       case Positional(key) =>
         && (i < sep ==> NoFlag(cfg, args[i]))
         && shares[i] == Share([(key, args[i])], [])
         && FirstOpenIs(cfg, Sum(shares[..i]).entries, key)
       case Leftover =>
         && (i < sep ==> NoFlag(cfg, args[i]))
         && shares[i] == Share([], [args[i]])
         && FirstOpen(cfg, Sum(shares[..i]).entries, |cfg.positional|)
  }

  /**
   The reading of a command line: `sep` is the place of the first `--` that is no value, or the number of
   arguments; all entries and leftovers are those of the arguments, in order.
   */
  ghost predicate Reads(cfg: Config, args: seq<string>, roles: seq<Role>, shares: seq<Share>, sep: nat) {
    && |roles| == |args| == |shares| && sep <= |args|
    && forall i :: 0 <= i < |args| ==> ReadsArgument(cfg, args, roles, shares, sep, i)
  }

  /** Every entry is a value of its option. */
  ghost predicate Acceptable(cfg: Config, e: KeyValue) {
    exists n <- cfg.options :: cfg.options[n].Essential() == e.0 && cfg.accepts(cfg.options[n].key, e.1)
  }

  /** And every default of an option that was not given in front of the separator is one. */
  ghost predicate AcceptableDefault(cfg: Config, given: seq<KeyValue>, n: string)
    requires n in cfg.options
  {
    var d := cfg.options[n];
    d.hasDefault && Places(given, d.Essential()) == {} ==> cfg.accepts(d.key, d.defaultValue)
  }

  ghost predicate Sensible(cfg: Config, args: seq<string>, roles: seq<Role>, shares: seq<Share>, sep: nat) {
    && Reads(cfg, args, roles, shares, sep)
    && (forall i :: 0 <= i < |Sum(shares).entries| ==> Acceptable(cfg, Sum(shares).entries[i]))
    && forall n <- cfg.options :: AcceptableDefault(cfg, Sum(shares[..sep]).entries, n)
  }

  // ---- counts and defaults --------------------------------------------------------------------

  /** Where a name was recorded. */
  function Places(entries: seq<KeyValue>, name: string): set<nat> {
    set i: nat | i < |entries| && entries[i].0 == name
  }

  ghost predicate IsDefault(cfg: Config, e: KeyValue, n: string) {
    n in cfg.options && cfg.options[n].hasDefault && e == (cfg.options[n].Essential(), cfg.options[n].defaultValue)
  }

  /** Each option that has a default and was not `given` is listed once, with its default; no other is. */
  ghost predicate ListsDefaults(cfg: Config, given: seq<KeyValue>, defaults: seq<KeyValue>) {
    && (forall e <- defaults :: exists n :: IsDefault(cfg, e, n))
    && forall n <- cfg.options ::
         var name := cfg.options[n].Essential();
         |Places(defaults, name)| == if cfg.options[n].hasDefault && Places(given, name) == {} then 1 else 0
  }

  // ---- what an error says ---------------------------------------------------------------------

  /** The text is no value of the option. */
  predicate Unfit(cfg: Config, d: Details, text: string, error: Error) {
    !cfg.accepts(d.key, text) && error == IncorrectType
  }

  /** An option without a value of its own cannot be read, `next` being the argument behind it. */
  predicate AloneFails(cfg: Config, d: Details, next: Option<string>, error: Error) {
    if d.hasImplicit then Unfit(cfg, d, d.implicitValue, error)
    else match next
      case None => error == MissingArgument
      case Some(text) => Unfit(cfg, d, text, error)
  }

  /** A letter of a group that is read, with more letters to follow. */
  predicate LetterPasses(cfg: Config, s: string, j: nat)
    requires j < |s|
  {
    if [s[j]] !in cfg.options then cfg.allowUnrecognised
    else
      var d := cfg.options[[s[j]]];
      j < |s| - 1 && d.hasImplicit && cfg.accepts(d.key, d.implicitValue)
  }

  predicate LetterFails(cfg: Config, s: string, j: nat, next: Option<string>, error: Error)
    requires j < |s|
  {
    if [s[j]] !in cfg.options then !cfg.allowUnrecognised && error == NoSuchOption
    else
      var d := cfg.options[[s[j]]];
      if j == |s| - 1 then AloneFails(cfg, d, next, error)
      else Unfit(cfg, d, if d.hasImplicit then d.implicitValue else s[j + 1..], error)
  }

  /** The first letter of the group that cannot be read. */
  ghost predicate GroupFails(cfg: Config, s: string, next: Option<string>, error: Error) {
    exists j :: 0 <= j < |s| && LetterFails(cfg, s, j, next, error) && forall k :: 0 <= k < j ==> LetterPasses(cfg, s, k)
  }

  ghost predicate FlagFails(cfg: Config, desc: ArguDesc, next: Option<string>, error: Error) {
    if desc.grouping then GroupFails(cfg, desc.name, next, error)
    else
      && desc.name != ""
      && if desc.name !in cfg.options then !cfg.allowUnrecognised && error == NoSuchOption
         else if desc.setValue then Unfit(cfg, cfg.options[desc.name], desc.value, error)
         else AloneFails(cfg, cfg.options[desc.name], next, error)
  }

  /** The positional option whose turn it is does not exist, or does not take the argument. */
  predicate SlotFails(cfg: Config, slot: nat, arg: string, error: Error) {
    && slot < |cfg.positional|
    && if cfg.positional[slot] !in cfg.options then error == NoSuchOption
       else Unfit(cfg, cfg.options[cfg.positional[slot]], arg, error)
  }

  /** Argument `i` cannot be read behind the given entries; `separated`: behind a separator. */
  ghost predicate ArgumentFails(cfg: Config, args: seq<string>, i: nat, entries: seq<KeyValue>, separated: bool, error: Error)
    requires i < |args|
  {
    var next := if i + 1 < |args| then Some(args[i + 1]) else None;
    if !separated && cfg.tokenise(args[i]).Some? then FlagFails(cfg, cfg.tokenise(args[i]).value, next, error)
    else if !separated && !NoFlag(cfg, args[i]) then error == InvalidSyntax
    else exists slot: nat :: FirstOpen(cfg, entries, slot) && SlotFails(cfg, slot, args[i], error)
  }

  /** The first `n` arguments can be read, as a command line of their own, with acceptable values. */
  ghost predicate ReadsFirst(cfg: Config, args: seq<string>, n: nat, roles: seq<Role>, shares: seq<Share>, sep: nat) {
    && n <= |args| && Reads(cfg, args[..n], roles, shares, sep)
    && forall i :: 0 <= i < |Sum(shares).entries| ==> Acceptable(cfg, Sum(shares).entries[i])
  }

  /** The error is that of the first argument that cannot be read, `--` being no such argument. */
  ghost predicate BlamesArgument(cfg: Config, args: seq<string>, n: nat, roles: seq<Role>, shares: seq<Share>, sep: nat,
                                 error: Error)
  {
    && ReadsFirst(cfg, args, n, roles, shares, sep) && n < |args| && (sep == n ==> args[n] != "--")
    && ArgumentFails(cfg, args, n, Sum(shares).entries, sep < n, error)
  }

  /** All arguments up to the separator can be read, but a default that is due is no value of its option. */
  ghost predicate BlamesDefault(cfg: Config, args: seq<string>, n: nat, roles: seq<Role>, shares: seq<Share>, sep: nat,
                                error: Error)
  {
    && ReadsFirst(cfg, args, n, roles, shares, sep) && (n == |args| || n == sep + 1) && error == IncorrectType
    && exists name <- cfg.options :: !AcceptableDefault(cfg, Sum(shares).entries, name)
  }

  ghost predicate Blames(cfg: Config, args: seq<string>, error: Error) {
    exists n, roles, shares, sep: nat ::
      BlamesArgument(cfg, args, n, roles, shares, sep, error) || BlamesDefault(cfg, args, n, roles, shares, sep, error)
  }
}
