/**
 Accounting for a command line argument by argument, as the parser does: what a flag adds, which
 positional option an argument goes to, and why nothing else is possible.
 */
module Accounting {
  import opened Wrappers
  import opened CommandLines

  datatype OptionValue = OptionValue(count: nat, isDefault: bool)

  /** An option is reachable by each of its names; distinct options share neither names nor storage. */
  ghost predicate Registered(options: map<string, Details>) {
    && "" !in options
    && (forall n <- options :: n == options[n].shortName || n in options[n].longNames)
    && (forall n <- options :: options[n].shortName != "" ==> At(options, options[n].shortName, options[n]))
    && (forall n <- options :: forall l <- options[n].longNames :: At(options, l, options[n]))
    && (forall m, n :: m in options && n in options && options[m].key == options[n].key ==> options[m] == options[n])
  }

  predicate At(options: map<string, Details>, n: string, d: Details) {
    n in options && options[n] == d
  }

  lemma EssentialIsName(options: map<string, Details>, n: string)
    requires Registered(options) && n in options
    ensures At(options, options[n].Essential(), options[n])
  {
  }

  function Stored(parsed: map<nat, OptionValue>, key: nat): OptionValue {
    if key in parsed then parsed[key] else OptionValue(0, false)
  }

  function Occurrences(entries: seq<KeyValue>, name: string): nat {
    if entries == [] then 0
    else Occurrences(entries[..|entries| - 1], name) + if entries[|entries| - 1].0 == name then 1 else 0
  }

  lemma OccurrencesSnoc(entries: seq<KeyValue>, e: KeyValue, name: string)
    ensures Occurrences(entries + [e], name) == Occurrences(entries, name) + if e.0 == name then 1 else 0
  {
    assert (entries + [e])[..|entries|] == entries;
  }

  ghost predicate AllAccepted(cfg: Config, entries: seq<KeyValue>) {
    forall i :: 0 <= i < |entries| ==> Acceptable(cfg, entries[i])
  }

  lemma AcceptableIff(cfg: Config, n: string, arg: string)
    requires Registered(cfg.options) && n in cfg.options
    ensures Acceptable(cfg, (cfg.options[n].Essential(), arg)) <==> cfg.accepts(cfg.options[n].key, arg)
  {
    if Acceptable(cfg, (cfg.options[n].Essential(), arg)) {
      var m :| m in cfg.options && cfg.options[m].Essential() == cfg.options[n].Essential() &&
               cfg.accepts(cfg.options[m].key, arg);
      Distinct(cfg.options, m, n);
    }
  }

  /** The stored count of every option is the number of its entries. */
  ghost predicate Tallied(cfg: Config, parsed: map<nat, OptionValue>, entries: seq<KeyValue>) {
    forall n <- cfg.options ::
      Stored(parsed, cfg.options[n].key).count == Occurrences(entries, cfg.options[n].Essential())
  }

  ghost predicate NoDefaults(cfg: Config, parsed: map<nat, OptionValue>) {
    forall n <- cfg.options :: !Stored(parsed, cfg.options[n].key).isDefault
  }

  /** Recording a value never changes a default flag. */
  ghost predicate SameFlags(a: map<nat, OptionValue>, b: map<nat, OptionValue>) {
    forall k :: Stored(a, k).isDefault == Stored(b, k).isDefault
  }

  /** Options are told apart by storage key and by essential name alike. */
  lemma Distinct(options: map<string, Details>, m: string, n: string)
    requires Registered(options) && m in options && n in options
    ensures options[m].key == options[n].key <==> options[m] == options[n]
    ensures options[m].Essential() == options[n].Essential() <==> options[m] == options[n]
  {
    EssentialIsName(options, m);
    EssentialIsName(options, n);
  }

  // ---- what one argument contributes ----------------------------------------------------------

  /** What a flag adds, and whether it takes the next argument as its last value. */
  datatype Effect = Effect(entries: seq<KeyValue>, left: seq<string>, takesNext: bool)

  function NextArg(args: seq<string>, i: nat): Option<string> {
    if i + 1 < |args| then Some(args[i + 1]) else None
  }

  function LastEffect(d: Details, next: Option<string>): Option<Effect> {
    if d.hasImplicit then Some(Effect([(d.Essential(), d.implicitValue)], [], false))
    else if next.Some? then Some(Effect([(d.Essential(), next.value)], [], true))
    else None
  }

  function ImplicitShare(d: Details): Share {
    Share([(d.Essential(), d.implicitValue)], [])
  }

  function Before(share: Share, rest: Option<Effect>): Option<Effect> {
    match rest
    case None => None
    case Some(r) => Some(Effect(share.entries + r.entries, share.left + r.left, r.takesNext))
  }

  /** A group of short options from its `i`-th letter on. */
  function GroupEffect(cfg: Config, s: string, i: nat, next: Option<string>): Option<Effect>
    requires i <= |s|
    decreases |s| - i
  {
    if i == |s| then Some(Effect([], [], false))
    else if [s[i]] !in cfg.options then
      if cfg.allowUnrecognised then Before(Share([], ["-" + [s[i]]]), GroupEffect(cfg, s, i + 1, next)) else None
    else
      var d := cfg.options[[s[i]]];
      if i + 1 == |s| then LastEffect(d, next)
      else if d.hasImplicit then Before(ImplicitShare(d), GroupEffect(cfg, s, i + 1, next))
      else Some(Effect([(d.Essential(), s[i + 1..])], [], false))
  }

  function FlagEffect(cfg: Config, arg: string, desc: ArguDesc, next: Option<string>): Option<Effect> {
    if desc.grouping then GroupEffect(cfg, desc.name, 0, next)
    else if desc.name == "" then Some(Effect([], [], false))
    else if desc.name !in cfg.options then if cfg.allowUnrecognised then Some(Effect([], [arg], false)) else None
    else if desc.setValue then Some(Effect([(cfg.options[desc.name].Essential(), desc.value)], [], false))
    else LastEffect(cfg.options[desc.name], next)
  }

  function EffectAt(cfg: Config, args: seq<string>, i: nat): Option<Effect>
    requires i < |args|
  {
    match cfg.tokenise(args[i])
    case None => None
    case Some(desc) => FlagEffect(cfg, args[i], desc, NextArg(args, i))
  }

  /** The flag cannot be parsed: an unknown name, a missing value, or a value of the wrong type. */
  ghost predicate Rejects(cfg: Config, effect: Option<Effect>) {
    effect.None? || !AllAccepted(cfg, effect.value.entries)
  }

  lemma RejectedEntry(cfg: Config, n: string, arg: string, rest: seq<KeyValue>)
    requires Registered(cfg.options) && n in cfg.options && !cfg.accepts(cfg.options[n].key, arg)
    ensures !AllAccepted(cfg, [(cfg.options[n].Essential(), arg)] + rest)
  {
    AcceptableIff(cfg, n, arg);
    assert ([(cfg.options[n].Essential(), arg)] + rest)[0] == (cfg.options[n].Essential(), arg);
  }

  // ---- the roles of the arguments -------------------------------------------------------------

  predicate LooksLikeFlag(arg: string) {
    2 <= |arg| && arg[0] == '-'
  }

  predicate TakesNext(cfg: Config, args: seq<string>, roles: seq<Role>, i: nat)
    requires i < |args| && i < |roles|
  {
    roles[i].Flag? && EffectAt(cfg, args, i).Some? && EffectAt(cfg, args, i).value.takesNext
  }

  /** The first positional option, from the cursor on, that can still take an argument. */
  function Slot(cfg: Config, entries: seq<KeyValue>, cursor: nat): (r: nat)
    requires cursor <= |cfg.positional|
    ensures cursor <= r <= |cfg.positional|
    decreases |cfg.positional| - cursor
  {
    if cursor < |cfg.positional| && cfg.positional[cursor] in cfg.options &&
       !cfg.options[cfg.positional[cursor]].isContainer &&
       Occurrences(entries, cfg.options[cfg.positional[cursor]].Essential()) != 0
    then Slot(cfg, entries, cursor + 1)
    else cursor
  }

  /** By the stored count, a single-valued positional option is the slot or is skipped. */
  lemma SlotByCount(cfg: Config, parsed: map<nat, OptionValue>, entries: seq<KeyValue>, next: nat, count: nat)
    requires next < |cfg.positional| && cfg.positional[next] in cfg.options && Tallied(cfg, parsed, entries)
    requires !cfg.options[cfg.positional[next]].isContainer
    requires count == Stored(parsed, cfg.options[cfg.positional[next]].key).count
    ensures Slot(cfg, entries, next) == if count == 0 then next else Slot(cfg, entries, next + 1)
  {
  }

  predicate SlotTakes(cfg: Config, slot: nat, arg: string) {
    slot < |cfg.positional| && cfg.positional[slot] in cfg.options &&
    cfg.accepts(cfg.options[cfg.positional[slot]].key, arg)
  }

  /** What an argument adds that goes to a positional option, or is left over. */
  function SlotShare(cfg: Config, slot: nat, arg: string): Share {
    if slot < |cfg.positional| && cfg.positional[slot] in cfg.options
    then Share([(cfg.options[cfg.positional[slot]].Essential(), arg)], [])
    else Share([], [arg])
  }

  /** Where the cursor goes next: a container keeps taking arguments. */
  function AfterSlot(cfg: Config, slot: nat): (r: nat)
    requires slot <= |cfg.positional|
    ensures slot <= r <= |cfg.positional|
  {
    if slot < |cfg.positional| && cfg.positional[slot] in cfg.options && !cfg.options[cfg.positional[slot]].isContainer
    then slot + 1
    else slot
  }

  /** The positional cursor when argument `i` is reached. */
  function CursorAt(cfg: Config, args: seq<string>, roles: seq<Role>, i: nat): (r: nat)
    requires i <= |args| && i <= |roles|
    ensures r <= |cfg.positional|
    decreases i, 0
  {
    if i == 0 then 0
    else if roles[i - 1].Positional? || roles[i - 1].Leftover? then AfterSlot(cfg, SlotAt(cfg, args, roles, i - 1))
    else CursorAt(cfg, args, roles, i - 1)
  }

  function SlotAt(cfg: Config, args: seq<string>, roles: seq<Role>, i: nat): (r: nat)
    requires i <= |args| && i <= |roles|
    ensures r <= |cfg.positional|
    decreases i, 1
  {
    Slot(cfg, Entries(cfg, args, roles, i), CursorAt(cfg, args, roles, i))
  }

  /** The positional option at a slot, if there is one, and its name. */
  predicate SlotIs(cfg: Config, slot: nat, key: string) {
    slot < |cfg.positional| && cfg.positional[slot] in cfg.options &&
    cfg.options[cfg.positional[slot]].Essential() == key
  }

  /**
   What role argument `i` may have, where `sep` is the place of the first `--` that is not a value:
   the argument behind a flag that takes one is its value and nothing else is; other arguments
   before `sep` are flags if the tokeniser matches them. All others go to the positional option whose
   turn it is, and are leftovers when there is none.
   */
  predicate RoleOk(cfg: Config, args: seq<string>, roles: seq<Role>, sep: nat, i: nat)
    requires i < |args| && i < |roles|
  {
    KindOk(cfg, args, roles, sep, i) && SlotOk(cfg, args, roles, i)
  }

  predicate KindOk(cfg: Config, args: seq<string>, roles: seq<Role>, sep: nat, i: nat)
    requires i < |args| && i < |roles|
  {
    && (roles[i].Program? <==> i == 0)
    && (roles[i].Separator? <==> i == sep)
    && (roles[i].ValueOf? <==> 0 < i && TakesNext(cfg, args, roles, i - 1))
    && (0 < i < sep && !roles[i].ValueOf? ==> args[i] != "--")
    && (i == sep ==> args[i] == "--")
    && (roles[i].Flag? ==> i < sep && EffectAt(cfg, args, i).Some?)
    && ((roles[i].Positional? || roles[i].Leftover?) && i < sep ==>
          NoFlag(cfg, args[i]))
  }

  predicate SlotOk(cfg: Config, args: seq<string>, roles: seq<Role>, i: nat)
    requires i < |args| && i < |roles|
  {
    && (roles[i].Positional? ==> SlotIs(cfg, SlotAt(cfg, args, roles, i), roles[i].key))
    && (roles[i].Leftover? ==> SlotAt(cfg, args, roles, i) == |cfg.positional|)
  }

  predicate RolesOk(cfg: Config, args: seq<string>, roles: seq<Role>, sep: nat, n: nat)
    requires n <= |args| && n <= |roles|
  {
    n == 0 || (RolesOk(cfg, args, roles, sep, n - 1) && RoleOk(cfg, args, roles, sep, n - 1))
  }

  lemma {:induction false} RolesOkMeans(cfg: Config, args: seq<string>, roles: seq<Role>, sep: nat, n: nat)
    requires n <= |args| && n <= |roles|
    ensures RolesOk(cfg, args, roles, sep, n) <==> forall i :: 0 <= i < n ==> RoleOk(cfg, args, roles, sep, i)
  {
    if n > 0 { RolesOkMeans(cfg, args, roles, sep, n - 1); }
  }

  /** What argument `i` adds. */
  function Contribution(cfg: Config, args: seq<string>, roles: seq<Role>, i: nat): Share
    requires i < |args| && i < |roles|
  {
    match roles[i]
    case Flag =>
      (match EffectAt(cfg, args, i) case Some(effect) => Share(effect.entries, effect.left) case None => Nothing)
    case Positional(key) => Share([(key, args[i])], [])
    case Leftover => Share([], [args[i]])
    case _ => Nothing
  }

  /** The entries of the first `n` arguments, in order. */
  function Entries(cfg: Config, args: seq<string>, roles: seq<Role>, n: nat): seq<KeyValue>
    requires n <= |args| && n <= |roles|
  {
    if n == 0 then [] else Entries(cfg, args, roles, n - 1) + Contribution(cfg, args, roles, n - 1).entries
  }

  function Leftovers(cfg: Config, args: seq<string>, roles: seq<Role>, n: nat): seq<string>
    requires n <= |args| && n <= |roles|
  {
    if n == 0 then [] else Leftovers(cfg, args, roles, n - 1) + Contribution(cfg, args, roles, n - 1).left
  }

  /** The first `|roles|` arguments are accounted for. */
  ghost predicate Accounted(cfg: Config, args: seq<string>, roles: seq<Role>, sep: nat,
                            entries: seq<KeyValue>, unmatched: seq<string>)
  {
    && |roles| <= |args|
    && RolesOk(cfg, args, roles, sep, |roles|)
    && entries == Entries(cfg, args, roles, |roles|)
    && unmatched == Leftovers(cfg, args, roles, |roles|)
  }

  lemma {:induction false} PrefixEntries(cfg: Config, args: seq<string>, roles: seq<Role>, more: seq<Role>, n: nat)
    requires n <= |roles| && n <= |args|
    ensures Entries(cfg, args, roles + more, n) == Entries(cfg, args, roles, n)
    ensures Leftovers(cfg, args, roles + more, n) == Leftovers(cfg, args, roles, n)
    ensures CursorAt(cfg, args, roles + more, n) == CursorAt(cfg, args, roles, n)
  {
    if n > 0 { PrefixEntries(cfg, args, roles, more, n - 1); }
  }

  lemma RoleOkExtends(cfg: Config, args: seq<string>, roles: seq<Role>, more: seq<Role>, sep: nat, i: nat)
    requires i < |roles| && i < |args| && RoleOk(cfg, args, roles, sep, i)
    ensures RoleOk(cfg, args, roles + more, sep, i)
  {
    PrefixEntries(cfg, args, roles, more, i);
    assert SlotAt(cfg, args, roles + more, i) == SlotAt(cfg, args, roles, i);
  }

  lemma {:induction false} RolesOkExtends(cfg: Config, args: seq<string>, roles: seq<Role>, more: seq<Role>, sep: nat,
                                          n: nat)
    requires n <= |roles| && n <= |args| && RolesOk(cfg, args, roles, sep, n)
    ensures RolesOk(cfg, args, roles + more, sep, n)
  {
    if n > 0 {
      RolesOkExtends(cfg, args, roles, more, sep, n - 1);
      RoleOkExtends(cfg, args, roles, more, sep, n - 1);
    }
  }

  lemma CursorAfter(cfg: Config, args: seq<string>, roles: seq<Role>, role: Role)
    requires |roles| < |args|
    ensures SlotAt(cfg, args, roles + [role], |roles|) == SlotAt(cfg, args, roles, |roles|)
    ensures CursorAt(cfg, args, roles + [role], |roles| + 1) ==
            if role.Positional? || role.Leftover? then AfterSlot(cfg, SlotAt(cfg, args, roles, |roles|))
            else CursorAt(cfg, args, roles, |roles|)
  {
    PrefixEntries(cfg, args, roles, [role], |roles|);
  }

  lemma EntriesNext(cfg: Config, args: seq<string>, roles: seq<Role>, role: Role, n: nat, roles': seq<Role>)
    requires n == |roles| < |args| && roles' == roles + [role]
    ensures Entries(cfg, args, roles', n + 1) == Entries(cfg, args, roles, n) + Contribution(cfg, args, roles', n).entries
    ensures Leftovers(cfg, args, roles', n + 1) == Leftovers(cfg, args, roles, n) + Contribution(cfg, args, roles', n).left
  {
    PrefixEntries(cfg, args, roles, [role], |roles|);
  }

  /** Giving the next argument a role. */
  lemma AccountNext(cfg: Config, args: seq<string>, roles: seq<Role>, sep: nat,
                    entries: seq<KeyValue>, unmatched: seq<string>, role: Role, added: Share)
    requires Accounted(cfg, args, roles, sep, entries, unmatched) && |roles| < |args|
    requires RoleOk(cfg, args, roles + [role], sep, |roles|)
    requires added == Contribution(cfg, args, roles + [role], |roles|)
    ensures Accounted(cfg, args, roles + [role], sep, entries + added.entries, unmatched + added.left)
  {
    EntriesNext(cfg, args, roles, role, |roles|, roles + [role]);
    RoleNext(cfg, args, roles, sep, role, |roles|, roles + [role]);
  }

  lemma RoleNext(cfg: Config, args: seq<string>, roles: seq<Role>, sep: nat, role: Role, n: nat, roles': seq<Role>)
    requires n == |roles| < |args| && roles' == roles + [role]
    requires RolesOk(cfg, args, roles, sep, n) && RoleOk(cfg, args, roles', sep, n)
    ensures RolesOk(cfg, args, roles', sep, n + 1)
  {
    RolesOkExtends(cfg, args, roles, [role], sep, n);
  }

  lemma SeparatorFound(cfg: Config, args: seq<string>, roles: seq<Role>, entries: seq<KeyValue>, unmatched: seq<string>)
    requires Accounted(cfg, args, roles, |args|, entries, unmatched)
    ensures Accounted(cfg, args, roles, |roles|, entries, unmatched)
  {
    RolesOkMeans(cfg, args, roles, |args|, |roles|);
    RolesOkMeans(cfg, args, roles, |roles|, |roles|);
    forall i | 0 <= i < |roles| ensures RoleOk(cfg, args, roles, |roles|, i) {
      assert RoleOk(cfg, args, roles, |args|, i);
    }
  }

  /** No flag is left waiting for its value. */
  predicate Closed(cfg: Config, args: seq<string>, roles: seq<Role>)
    requires |roles| <= |args|
  {
    roles != [] ==> !TakesNext(cfg, args, roles, |roles| - 1)
  }

  ghost predicate OnlyDefaults(cfg: Config, defaults: seq<KeyValue>) {
    forall e <- defaults :: exists n :: IsDefault(cfg, e, n)
  }

  /** Each option that has a default and was not `given` is listed once, with its default; no other is. */
  ghost predicate DefaultsListed(cfg: Config, given: seq<KeyValue>, defaults: seq<KeyValue>) {
    && OnlyDefaults(cfg, defaults)
    && forall n <- cfg.options ::
         Occurrences(defaults, cfg.options[n].Essential()) == if Due(cfg, given, n) then 1 else 0
  }

  predicate Due(cfg: Config, entries: seq<KeyValue>, n: string)
    requires n in cfg.options
  {
    cfg.options[n].hasDefault && Occurrences(entries, cfg.options[n].Essential()) == 0
  }

  ghost predicate KeysKnown(cfg: Config, keys: map<string, nat>) {
    forall k <- keys :: k == "" || k in cfg.options
  }

  ghost predicate KeysSound(cfg: Config, keys: map<string, nat>) {
    forall n <- cfg.options :: n in keys ==> keys[n] == cfg.options[n].key
  }

  /** Whether the defaults pass has listed the option of `n` when the storage keys in `done` have been visited. */
  predicate Taken(cfg: Config, entries: seq<KeyValue>, done: set<nat>, n: string)
    requires n in cfg.options
  {
    cfg.options[n].key in done && Due(cfg, entries, n)
  }

  ghost predicate FlagsDone(cfg: Config, parsed: map<nat, OptionValue>, entries: seq<KeyValue>, done: set<nat>) {
    forall n <- cfg.options :: Stored(parsed, cfg.options[n].key).isDefault == Taken(cfg, entries, done, n)
  }

  ghost predicate ListDone(cfg: Config, entries: seq<KeyValue>, defaults: seq<KeyValue>, done: set<nat>) {
    && OnlyDefaults(cfg, defaults)
    && forall n <- cfg.options ::
         Occurrences(defaults, cfg.options[n].Essential()) == if Taken(cfg, entries, done, n) then 1 else 0
  }

  /** Every default that is due is a value of its option. */
  ghost predicate DefaultsOk(cfg: Config, given: seq<KeyValue>) {
    forall n <- cfg.options :: Due(cfg, given, n) ==> cfg.accepts(cfg.options[n].key, cfg.options[n].defaultValue)
  }

  ghost predicate DoneOk(cfg: Config, given: seq<KeyValue>, done: set<nat>) {
    forall n <- cfg.options ::
      Taken(cfg, given, done, n) ==> cfg.accepts(cfg.options[n].key, cfg.options[n].defaultValue)
  }

  /** The option of `n` is told apart from every other one. */
  ghost predicate Isolated(cfg: Config, n: string)
    requires n in cfg.options
  {
    forall m <- cfg.options ::
      && (cfg.options[m].key == cfg.options[n].key <==> cfg.options[m] == cfg.options[n])
      && (cfg.options[m].Essential() == cfg.options[n].Essential() <==> cfg.options[m] == cfg.options[n])
  }

  lemma AllIsolated(cfg: Config, n: string)
    requires Registered(cfg.options) && n in cfg.options
    ensures Isolated(cfg, n)
  {
    forall m <- cfg.options
      ensures cfg.options[m].key == cfg.options[n].key <==> cfg.options[m] == cfg.options[n]
      ensures cfg.options[m].Essential() == cfg.options[n].Essential() <==> cfg.options[m] == cfg.options[n]
    {
      Distinct(cfg.options, m, n);
    }
  }

  lemma FlagsStay(cfg: Config, before: map<nat, OptionValue>, after: map<nat, OptionValue>, entries: seq<KeyValue>,
                  done: set<nat>)
    requires FlagsDone(cfg, before, entries, done) && forall k :: Stored(after, k) == Stored(before, k)
    ensures FlagsDone(cfg, after, entries, done)
  {
  }

  lemma TallyStays(cfg: Config, parsed: map<nat, OptionValue>, entries: seq<KeyValue>, key: nat)
    requires Tallied(cfg, parsed, entries)
    ensures Tallied(cfg, parsed[key := Stored(parsed, key).(isDefault := true)], entries)
  {
  }

  lemma TakeDefault(cfg: Config, parsed: map<nat, OptionValue>, entries: seq<KeyValue>, defaults: seq<KeyValue>,
                    done: set<nat>, n: string)
    requires n in cfg.options && Isolated(cfg, n)
    requires FlagsDone(cfg, parsed, entries, done) && ListDone(cfg, entries, defaults, done)
    requires var d := cfg.options[n]; Due(cfg, entries, n) && !Stored(parsed, d.key).isDefault
    ensures var d := cfg.options[n];
            && FlagsDone(cfg, parsed[d.key := Stored(parsed, d.key).(isDefault := true)], entries, done + {d.key})
            && ListDone(cfg, entries, defaults + [(d.Essential(), d.defaultValue)], done + {d.key})
  {
    var d := cfg.options[n];
    assert IsDefault(cfg, (d.Essential(), d.defaultValue), n);
    forall m <- cfg.options
      ensures Occurrences(defaults + [(d.Essential(), d.defaultValue)], cfg.options[m].Essential()) ==
              if Taken(cfg, entries, done + {d.key}, m) then 1 else 0
    {
      OccurrencesSnoc(defaults, (d.Essential(), d.defaultValue), cfg.options[m].Essential());
    }
  }

  lemma SkipDefault(cfg: Config, parsed: map<nat, OptionValue>, entries: seq<KeyValue>, defaults: seq<KeyValue>,
                    done: set<nat>, n: string)
    requires n in cfg.options && Isolated(cfg, n)
    requires FlagsDone(cfg, parsed, entries, done) && ListDone(cfg, entries, defaults, done)
    requires !Due(cfg, entries, n) || Stored(parsed, cfg.options[n].key).isDefault
    ensures var k := cfg.options[n].key;
            FlagsDone(cfg, parsed, entries, done + {k}) && ListDone(cfg, entries, defaults, done + {k})
  {
    forall m <- cfg.options
      ensures Taken(cfg, entries, done + {cfg.options[n].key}, m) <==> Taken(cfg, entries, done, m)
    {
    }
  }

  lemma EmptyTally(cfg: Config)
    ensures Tallied(cfg, map[], []) && NoDefaults(cfg, map[])
  {
  }

  lemma EntriesBeforeSeparator(cfg: Config, args: seq<string>, roles0: seq<Role>, roles: seq<Role>, sep: nat)
    requires sep + 1 == |roles0| <= |args| && roles0 <= roles && RolesOk(cfg, args, roles0, sep, |roles0|)
    ensures Entries(cfg, args, roles0, |roles0|) == Entries(cfg, args, roles, sep)
  {
    PrefixEntries(cfg, args, roles0, roles[|roles0|..], sep);
    assert roles0 + roles[|roles0|..] == roles;
  }

  lemma PrefixTrans<T>(a: seq<T>, b: seq<T>, c: seq<T>)
    requires a <= b <= c
    ensures a <= c
  {
  }

  /** The arguments before `current` are accounted for. */
  ghost predicate InLoop(cfg: Config, args: seq<string>, roles: seq<Role>, current: nat, cursor: nat,
                         entries: seq<KeyValue>, unmatched: seq<string>)
  {
    && |roles| == current && roles != [] && Accounted(cfg, args, roles, |args|, entries, unmatched)
    && Closed(cfg, args, roles) && cursor == CursorAt(cfg, args, roles, current)
  }

  ghost predicate AfterLoop(cfg: Config, args: seq<string>, roles: seq<Role>, current: nat, cursor: nat, sep: nat,
                            entries: seq<KeyValue>, unmatched: seq<string>)
  {
    && |roles| == current && sep < current && Accounted(cfg, args, roles, sep, entries, unmatched)
    && cursor == CursorAt(cfg, args, roles, current)
  }

  ghost predicate Remaining(cfg: Config, args: seq<string>, roles: seq<Role>, sep: nat,
                            entries: seq<KeyValue>, unmatched: seq<string>)
  {
    |roles| == |args| && sep < |args| && Accounted(cfg, args, roles, sep, entries, unmatched)
  }

  function SlotRole(cfg: Config, slot: nat): Role {
    if slot < |cfg.positional| && cfg.positional[slot] in cfg.options
    then Positional(cfg.options[cfg.positional[slot]].Essential())
    else Leftover
  }

  /** An argument that is no flag goes to the slot whose turn it is. */
  lemma AccountSlot(cfg: Config, args: seq<string>, roles: seq<Role>, sep: nat,
                    entries: seq<KeyValue>, unmatched: seq<string>, slot: nat, arg: string)
    requires 0 < |roles| < |args| && Accounted(cfg, args, roles, sep, entries, unmatched)
    requires |roles| != sep && Closed(cfg, args, roles) && arg == args[|roles|]
    requires |roles| < sep ==> arg != "--" && NoFlag(cfg, arg)
    requires slot == SlotAt(cfg, args, roles, |roles|)
    requires slot == |cfg.positional| || cfg.positional[slot] in cfg.options
    ensures var share := SlotShare(cfg, slot, arg);
            Accounted(cfg, args, roles + [SlotRole(cfg, slot)], sep, entries + share.entries, unmatched + share.left)
    ensures CursorAt(cfg, args, roles + [SlotRole(cfg, slot)], |roles| + 1) == AfterSlot(cfg, slot)
    ensures Closed(cfg, args, roles + [SlotRole(cfg, slot)])
  {
    var role := SlotRole(cfg, slot);
    CursorAfter(cfg, args, roles, role);
    assert SlotOk(cfg, args, roles + [role], |roles|);
    assert KindOk(cfg, args, roles + [role], sep, |roles|);
    AccountNext(cfg, args, roles, sep, entries, unmatched, role, SlotShare(cfg, slot, arg));
  }

  lemma SlotReached(cfg: Config, args: seq<string>, roles: seq<Role>, entries: seq<KeyValue>, cursor: nat)
    requires |roles| <= |args| && cursor <= |cfg.positional|
    requires entries == Entries(cfg, args, roles, |roles|) && cursor == CursorAt(cfg, args, roles, |roles|)
    ensures SlotAt(cfg, args, roles, |roles|) == Slot(cfg, entries, cursor)
  {
  }

  lemma ProgramFirst(cfg: Config, args: seq<string>)
    requires args != []
    ensures InLoop(cfg, args, [Program], 1, 0, [], [])
  {
    var roles := [Program];
    NothingRead(cfg, args, roles);
    assert KindOk(cfg, args, roles, |args|, 0) && SlotOk(cfg, args, roles, 0);
    assert RoleOk(cfg, args, roles, |args|, 0);
    assert RolesOk(cfg, args, roles, |args|, 0);
    assert RolesOk(cfg, args, roles, |args|, 1);
  }

  /** The program name adds nothing. */
  lemma NothingRead(cfg: Config, args: seq<string>, roles: seq<Role>)
    requires args != [] && roles == [Program]
    ensures Entries(cfg, args, roles, 1) == [] && Leftovers(cfg, args, roles, 1) == [] && CursorAt(cfg, args, roles, 1) == 0
  {
    assert Contribution(cfg, args, roles, 0) == Nothing;
    assert Entries(cfg, args, roles, 0) == [] && Leftovers(cfg, args, roles, 0) == [];
    assert CursorAt(cfg, args, roles, 0) == 0;
  }

  lemma AccountSeparator(cfg: Config, args: seq<string>, roles: seq<Role>, current: nat, cursor: nat,
                         entries: seq<KeyValue>, unmatched: seq<string>)
    requires current < |args| && InLoop(cfg, args, roles, current, cursor, entries, unmatched)
    requires args[current] == "--"
    ensures AfterLoop(cfg, args, roles + [Separator], current + 1, cursor, current, entries, unmatched)
  {
    SeparatorFound(cfg, args, roles, entries, unmatched);
    AccountPlain(cfg, args, roles, current, entries, unmatched, Separator, Nothing);
    assert entries + [] == entries && unmatched + [] == unmatched;
  }

  lemma AccountUnmatched(cfg: Config, args: seq<string>, roles: seq<Role>, current: nat, cursor: nat,
                         entries: seq<KeyValue>, unmatched: seq<string>) returns (roles': seq<Role>)
    requires current < |args| && cursor <= |cfg.positional|
    requires InLoop(cfg, args, roles, current, cursor, entries, unmatched)
    requires args[current] != "--" && NoFlag(cfg, args[current])
    requires var slot := Slot(cfg, entries, cursor); slot == |cfg.positional| || cfg.positional[slot] in cfg.options
    ensures var slot := Slot(cfg, entries, cursor);
            var share := SlotShare(cfg, slot, args[current]);
            InLoop(cfg, args, roles', current + 1, AfterSlot(cfg, slot), entries + share.entries, unmatched + share.left)
  {
    var slot := Slot(cfg, entries, cursor);
    SlotReached(cfg, args, roles, entries, cursor);
    AccountSlot(cfg, args, roles, |args|, entries, unmatched, slot, args[current]);
    roles' := roles + [SlotRole(cfg, slot)];
  }

  lemma AccountMatched(cfg: Config, args: seq<string>, roles: seq<Role>, current: nat, cursor: nat,
                       entries: seq<KeyValue>, unmatched: seq<string>, desc: ArguDesc,
                       entries': seq<KeyValue>, left: seq<string>, current': nat, unmatched': seq<string>)
    returns (roles': seq<Role>)
    requires current < |args| && InLoop(cfg, args, roles, current, cursor, entries, unmatched)
    requires args[current] != "--" && cfg.tokenise(args[current]) == Some(desc)
    requires 0 < current' && unmatched' == unmatched + left
    requires EffectDone(FlagEffect(cfg, args[current], desc, NextArg(args, current)), entries, entries', left, current,
                        current' - 1)
    ensures current < current' && InLoop(cfg, args, roles', current', cursor, entries', unmatched')
  {
    var effect := EffectAt(cfg, args, current).value;
    AccountFlag(cfg, args, roles, entries, unmatched, effect);
    roles' := roles + [Flag];
    if effect.takesNext {
      TakenArgumentExists(cfg, args, current);
      AccountValue(cfg, args, roles', entries', unmatched');
      roles' := roles' + [ValueOf];
    }
  }

  lemma AccountRemaining(cfg: Config, args: seq<string>, roles: seq<Role>, current: nat, cursor: nat, sep: nat,
                         entries: seq<KeyValue>, unmatched: seq<string>, slot: nat, arg: string)
    returns (roles': seq<Role>)
    requires current < |args| && cursor <= |cfg.positional| && sep < current
    requires AfterLoop(cfg, args, roles, current, cursor, sep, entries, unmatched)
    requires slot == Slot(cfg, entries, cursor) && arg == args[current]
    requires slot == |cfg.positional| || cfg.positional[slot] in cfg.options
    ensures roles <= roles'
    ensures var share := SlotShare(cfg, slot, arg);
            AfterLoop(cfg, args, roles', current + 1, AfterSlot(cfg, slot), sep, entries + share.entries,
                      unmatched + share.left)
  {
    NotWaiting(cfg, args, roles, sep);
    SlotReached(cfg, args, roles, entries, cursor);
    AccountSlot(cfg, args, roles, sep, entries, unmatched, slot, arg);
    roles' := roles + [SlotRole(cfg, slot)];
  }

  /** Behind the separator no flag waits for its value. */
  lemma NotWaiting(cfg: Config, args: seq<string>, roles: seq<Role>, sep: nat)
    requires sep < |roles| <= |args| && RolesOk(cfg, args, roles, sep, |roles|)
    ensures Closed(cfg, args, roles)
  {
    assert RoleOk(cfg, args, roles, sep, |roles| - 1);
  }

  lemma AccountLeftover(cfg: Config, args: seq<string>, roles: seq<Role>, current: nat, cursor: nat, sep: nat,
                        entries: seq<KeyValue>, unmatched: seq<string>) returns (roles': seq<Role>)
    requires current < |args| && cursor <= |cfg.positional| && sep < current
    requires AfterLoop(cfg, args, roles, current, cursor, sep, entries, unmatched)
    requires Slot(cfg, entries, cursor) == |cfg.positional|
    ensures roles <= roles' && Slot(cfg, entries, |cfg.positional|) == |cfg.positional|
    ensures AfterLoop(cfg, args, roles', current + 1, |cfg.positional|, sep, entries, unmatched + [args[current]])
  {
    var end := |cfg.positional|;
    roles' := AccountRemaining(cfg, args, roles, current, cursor, sep, entries, unmatched, end, args[current]);
    assert entries + [] == entries;
  }

  lemma FirstOfRest(args: seq<string>, current: nat, unmatched: seq<string>, all: seq<string>)
    requires current < |args| && all == unmatched + args[current..]
    ensures all == unmatched + [args[current]] + args[current + 1..]
  {
  }

  lemma {:induction false} AllLeftover(cfg: Config, args: seq<string>, roles: seq<Role>, current: nat, cursor: nat,
                                       sep: nat, entries: seq<KeyValue>, unmatched: seq<string>, all: seq<string>)
    returns (roles': seq<Role>)
    requires current <= |args| && cursor <= |cfg.positional| && sep < current
    requires AfterLoop(cfg, args, roles, current, cursor, sep, entries, unmatched)
    requires current < |args| ==> Slot(cfg, entries, cursor) == |cfg.positional|
    requires all == unmatched + args[current..]
    ensures Remaining(cfg, args, roles', sep, entries, all) && roles <= roles'
    decreases |args| - current
  {
    if current == |args| {
      roles' := roles;
      assert all == unmatched;
    } else {
      FirstOfRest(args, current, unmatched, all);
      var end, more := |cfg.positional|, unmatched + [args[current]];
      var roles1 := AccountLeftover(cfg, args, roles, current, cursor, sep, entries, unmatched);
      roles' := AllLeftover(cfg, args, roles1, current + 1, end, sep, entries, more, all);
    }
  }

  // ---- when no parse exists -------------------------------------------------------------------

  /** The roles account for the whole command line, and every value and every default that is due is of its type. */
  ghost predicate Parses(cfg: Config, args: seq<string>, roles: seq<Role>, sep: nat) {
    && |roles| == |args| && sep <= |args|
    && RolesOk(cfg, args, roles, sep, |args|)
    && AllAccepted(cfg, Entries(cfg, args, roles, |args|))
    && DefaultsOk(cfg, Entries(cfg, args, roles, sep))
  }

  ghost predicate Unparsable(cfg: Config, args: seq<string>) {
    forall roles, sep: nat :: !Parses(cfg, args, roles, sep)
  }

  /** Argument `i`, which is no value of a flag, cannot be parsed. */
  ghost predicate Faulty(cfg: Config, args: seq<string>, i: nat, entries: seq<KeyValue>, cursor: nat, separated: bool)
    requires i < |args| && cursor <= |cfg.positional|
  {
    match if separated then None else cfg.tokenise(args[i])
    case Some(_) => Rejects(cfg, EffectAt(cfg, args, i))
    case None =>
      var slot := Slot(cfg, entries, cursor);
      || (!separated && !NoFlag(cfg, args[i]))
      || (slot < |cfg.positional| && !SlotTakes(cfg, slot, args[i]))
  }

  /** The error with which argument `i` cannot be parsed. */
  ghost predicate FailsAt(cfg: Config, args: seq<string>, i: nat, entries: seq<KeyValue>, cursor: nat, separated: bool,
                          error: Error)
    requires i < |args| && cursor <= |cfg.positional|
  {
    match if separated then None else cfg.tokenise(args[i])
    case Some(desc) => FlagFails(cfg, desc, NextArg(args, i), error)
    case None =>
      if !separated && !NoFlag(cfg, args[i]) then error == InvalidSyntax
      else SlotFails(cfg, Slot(cfg, entries, cursor), args[i], error)
  }

  lemma MatchedFails(cfg: Config, args: seq<string>, i: nat, desc: ArguDesc, entries: seq<KeyValue>, cursor: nat,
                     error: Error)
    requires i < |args| && cursor <= |cfg.positional| && cfg.tokenise(args[i]) == Some(desc)
    requires FlagFails(cfg, desc, NextArg(args, i), error) && Rejects(cfg, FlagEffect(cfg, args[i], desc, NextArg(args, i)))
    ensures FailsAt(cfg, args, i, entries, cursor, false, error) && Faulty(cfg, args, i, entries, cursor, false)
  {
  }

  lemma {:induction false} AcceptedPart(cfg: Config, args: seq<string>, roles: seq<Role>, n: nat, i: nat)
    requires i < n <= |args| && n <= |roles| && AllAccepted(cfg, Entries(cfg, args, roles, n))
    ensures AllAccepted(cfg, Contribution(cfg, args, roles, i).entries)
  {
    var before, last := Entries(cfg, args, roles, n - 1), Contribution(cfg, args, roles, n - 1).entries;
    if i == n - 1 {
      forall k | 0 <= k < |last| ensures Acceptable(cfg, last[k]) {
        assert (before + last)[|before| + k] == last[k];
      }
    } else {
      forall k | 0 <= k < |before| ensures Acceptable(cfg, before[k]) {
        assert (before + last)[k] == before[k];
      }
      AcceptedPart(cfg, args, roles, n - 1, i);
    }
  }

  /** A parse of the whole command line extends any accounting of its first arguments. */
  lemma ParseExtends(cfg: Config, args: seq<string>, roles: seq<Role>, sep: nat, b: seq<Role>, sepB: nat)
    requires |roles| <= |args| && RolesOk(cfg, args, roles, sep, |roles|)
    requires Parses(cfg, args, b, sepB)
    ensures roles <= b
    ensures forall i :: 0 <= i <= |roles| ==>
              && Entries(cfg, args, b, i) == Entries(cfg, args, roles, i)
              && CursorAt(cfg, args, b, i) == CursorAt(cfg, args, roles, i)
  {
    var n := |roles|;
    RolesOkMeans(cfg, args, b, sepB, |args|);
    RolesOkMeans(cfg, args, b, sepB, n);
    RolesAreDetermined(cfg, args, roles, sep, b, sepB, n);
    assert roles[..n] == roles && b == roles + b[n..];
    forall i | 0 <= i <= n
      ensures Entries(cfg, args, b, i) == Entries(cfg, args, roles, i)
      ensures CursorAt(cfg, args, b, i) == CursorAt(cfg, args, roles, i)
    {
      PrefixEntries(cfg, args, roles, b[n..], i);
    }
  }

  lemma FaultRefutes(cfg: Config, args: seq<string>, roles: seq<Role>, sep: nat, entries: seq<KeyValue>,
                     unmatched: seq<string>, cursor: nat)
    requires Registered(cfg.options)
    requires 0 < |roles| < |args| && Accounted(cfg, args, roles, sep, entries, unmatched)
    requires cursor == CursorAt(cfg, args, roles, |roles|)
    requires sep < |roles| || (sep == |args| && args[|roles|] != "--" && Closed(cfg, args, roles))
    requires Faulty(cfg, args, |roles|, entries, cursor, sep < |roles|)
    ensures Unparsable(cfg, args)
  {
    forall b, sepB: nat ensures !Parses(cfg, args, b, sepB) {
      if Parses(cfg, args, b, sepB) {
        ParseHasNoFault(cfg, args, roles, sep, b, sepB);
        assert false;
      }
    }
  }

  lemma FaultInLoop(cfg: Config, args: seq<string>, roles: seq<Role>, current: nat, cursor: nat,
                    entries: seq<KeyValue>, unmatched: seq<string>)
    requires Registered(cfg.options) && current < |args| && cursor <= |cfg.positional|
    requires InLoop(cfg, args, roles, current, cursor, entries, unmatched)
    requires args[current] != "--" && Faulty(cfg, args, current, entries, cursor, false)
    ensures Unparsable(cfg, args)
  {
    FaultRefutes(cfg, args, roles, |args|, entries, unmatched, cursor);
  }

  lemma FaultBehind(cfg: Config, args: seq<string>, roles: seq<Role>, current: nat, cursor: nat, sep: nat,
                    entries: seq<KeyValue>, unmatched: seq<string>)
    requires Registered(cfg.options) && current < |args| && cursor <= |cfg.positional| && sep < current
    requires AfterLoop(cfg, args, roles, current, cursor, sep, entries, unmatched)
    requires var slot := Slot(cfg, entries, cursor); slot < |cfg.positional| && !SlotTakes(cfg, slot, args[current])
    ensures Unparsable(cfg, args)
  {
    FaultRefutes(cfg, args, roles, sep, entries, unmatched, cursor);
  }

  /** A parse agrees with the accounting so far, and then goes on without a fault. */
  lemma ParseHasNoFault(cfg: Config, args: seq<string>, roles: seq<Role>, sep: nat, b: seq<Role>, sepB: nat)
    requires Registered(cfg.options) && 0 < |roles| < |args|
    requires RolesOk(cfg, args, roles, sep, |roles|)
    requires sep < |roles| || (sep == |args| && args[|roles|] != "--" && Closed(cfg, args, roles))
    requires Parses(cfg, args, b, sepB)
    ensures !Faulty(cfg, args, |roles|, Entries(cfg, args, roles, |roles|), CursorAt(cfg, args, roles, |roles|),
                    sep < |roles|)
  {
    var i := |roles|;
    ParseExtends(cfg, args, roles, sep, b, sepB);
    NextIsNoValue(cfg, args, roles, sep, b, sepB);
    RolesOkMeans(cfg, args, b, sepB, |args|);
    assert RoleOk(cfg, args, b, sepB, i);
    AcceptedPart(cfg, args, b, |args|, i);
    NoFault(cfg, args, b, sepB, i);
  }

  lemma NextIsNoValue(cfg: Config, args: seq<string>, roles: seq<Role>, sep: nat, b: seq<Role>, sepB: nat)
    requires 0 < |roles| < |args| == |b| && roles <= b
    requires RolesOk(cfg, args, roles, sep, |roles|)
    requires RolesOk(cfg, args, b, sepB, |args|)
    requires sep < |roles| || (sep == |args| && args[|roles|] != "--" && Closed(cfg, args, roles))
    ensures var i := |roles|; (b[i].Flag? || b[i].Positional? || b[i].Leftover?) && (sep < i <==> sepB < i)
  {
    var i := |roles|;
    assert b[i - 1] == roles[i - 1];
    RolesOkMeans(cfg, args, b, sepB, |args|);
    assert RoleOk(cfg, args, roles, sep, i - 1) && RoleOk(cfg, args, b, sepB, i);
    SameSeparator(cfg, args, roles, sep, b, sepB);
  }

  lemma SameSeparator(cfg: Config, args: seq<string>, roles: seq<Role>, sep: nat, b: seq<Role>, sepB: nat)
    requires |roles| <= |args| == |b| && roles <= b
    requires RolesOk(cfg, args, roles, sep, |roles|)
    requires RolesOk(cfg, args, b, sepB, |args|)
    ensures sep < |roles| || sepB < |roles| ==> sep == sepB
  {
    RolesOkMeans(cfg, args, roles, sep, |roles|);
    RolesOkMeans(cfg, args, b, sepB, |args|);
    if sep < |roles| {
      assert RoleOk(cfg, args, roles, sep, sep) && RoleOk(cfg, args, b, sepB, sep);
      assert b[sep] == roles[sep];
    }
    if sepB < |roles| {
      assert RoleOk(cfg, args, roles, sep, sepB) && RoleOk(cfg, args, b, sepB, sepB);
      assert b[sepB] == roles[sepB];
    }
  }

  lemma NoFault(cfg: Config, args: seq<string>, roles: seq<Role>, sep: nat, i: nat)
    requires Registered(cfg.options)
    requires i < |args| == |roles| && RoleOk(cfg, args, roles, sep, i)
    requires AllAccepted(cfg, Contribution(cfg, args, roles, i).entries)
    requires roles[i].Flag? || roles[i].Positional? || roles[i].Leftover?
    ensures !Faulty(cfg, args, i, Entries(cfg, args, roles, i), CursorAt(cfg, args, roles, i), sep < i)
  {
    if roles[i].Positional? {
      var n := cfg.positional[SlotAt(cfg, args, roles, i)];
      assert Contribution(cfg, args, roles, i).entries[0] == (roles[i].key, args[i]);
      AcceptableIff(cfg, n, args[i]);
    }
  }

  lemma DefaultsRefute(cfg: Config, args: seq<string>, roles: seq<Role>, sep: nat, entries: seq<KeyValue>,
                       unmatched: seq<string>)
    requires Accounted(cfg, args, roles, sep, entries, unmatched) && sep <= |args|
    requires |roles| == if sep < |args| then sep + 1 else |args|
    requires !DefaultsOk(cfg, entries)
    ensures Unparsable(cfg, args)
  {
    if sep < |args| {
      assert RoleOk(cfg, args, roles, sep, sep);
      assert Entries(cfg, args, roles, sep + 1) == Entries(cfg, args, roles, sep);
    }
    forall b, sepB: nat ensures !Parses(cfg, args, b, sepB) {
      if Parses(cfg, args, b, sepB) {
        ParseExtends(cfg, args, roles, sep, b, sepB);
        SameSeparator(cfg, args, roles, sep, b, sepB);
        assert false;
      }
    }
  }

  lemma CountingKeepsFlags(parsed: map<nat, OptionValue>, key: nat)
    ensures var store := Stored(parsed, key); SameFlags(parsed, parsed[key := store.(count := store.count + 1)])
  {
  }

  lemma AcceptedOneMore(cfg: Config, entries: seq<KeyValue>, n: string, arg: string)
    requires Registered(cfg.options) && n in cfg.options && AllAccepted(cfg, entries)
    requires cfg.accepts(cfg.options[n].key, arg)
    ensures AllAccepted(cfg, entries + [(cfg.options[n].Essential(), arg)])
  {
    AcceptableIff(cfg, n, arg);
  }

  lemma TallyOneMore(cfg: Config, parsed: map<nat, OptionValue>, entries: seq<KeyValue>, n: string, arg: string)
    requires Registered(cfg.options) && Tallied(cfg, parsed, entries) && n in cfg.options
    ensures var d := cfg.options[n];
            var store := Stored(parsed, d.key);
            Tallied(cfg, parsed[d.key := store.(count := store.count + 1)], entries + [(d.Essential(), arg)])
  {
    var d := cfg.options[n];
    forall m <- cfg.options
      ensures Occurrences(entries + [(d.Essential(), arg)], cfg.options[m].Essential()) ==
              Occurrences(entries, cfg.options[m].Essential()) + if cfg.options[m].key == d.key then 1 else 0
    {
      Distinct(cfg.options, m, n);
      OccurrencesSnoc(entries, (d.Essential(), arg), cfg.options[m].Essential());
    }
  }

  /** What has been added so far, when the rest of the group still has its effect to add. */
  ghost predicate GroupSoFar(whole: Option<Effect>, rest: Option<Effect>, before: seq<KeyValue>, now: seq<KeyValue>,
                             left: seq<string>)
  {
    match rest
    case None => whole.None?
    case Some(rest) =>
      && whole.Some? && whole.value.takesNext == rest.takesNext && whole.value.left == left + rest.left
      && before <= now && before + whole.value.entries == now + rest.entries
  }

  lemma GroupStep(whole: Option<Effect>, rest: Option<Effect>, before: seq<KeyValue>, now: seq<KeyValue>,
                  left: seq<string>, added: Share, later: Option<Effect>)
    requires GroupSoFar(whole, rest, before, now, left) && rest == Before(added, later)
    ensures GroupSoFar(whole, later, before, now + added.entries, left + added.left)
  {
    if later.Some? {
      assert now + (added.entries + later.value.entries) == now + added.entries + later.value.entries;
      assert left + (added.left + later.value.left) == left + added.left + later.value.left;
    }
  }

  lemma SkipLetter(cfg: Config, s: string, i: nat, next: Option<string>, whole: Option<Effect>, before: seq<KeyValue>,
                   now: seq<KeyValue>, left: seq<string>)
    requires i < |s| && [s[i]] !in cfg.options && cfg.allowUnrecognised
    requires GroupSoFar(whole, GroupEffect(cfg, s, i, next), before, now, left)
    ensures GroupSoFar(whole, GroupEffect(cfg, s, i + 1, next), before, now, left + ["-" + [s[i]]])
    ensures AllPass(cfg, s, i) ==> AllPass(cfg, s, i + 1)
  {
    GroupStep(whole, GroupEffect(cfg, s, i, next), before, now, left, Share([], ["-" + [s[i]]]),
              GroupEffect(cfg, s, i + 1, next));
    assert now + [] == now;
  }

  /** The whole effect of argument `start` has been added, and `last` is the last argument used. */
  ghost predicate EffectDone(whole: Option<Effect>, before: seq<KeyValue>, now: seq<KeyValue>, left: seq<string>,
                            start: nat, last: nat)
  {
    && whole.Some? && now == before + whole.value.entries && left == whole.value.left
    && last == if whole.value.takesNext then start + 1 else start
  }

  /** When the rest leaves nothing over, the group leaves over what it has so far. */
  lemma GroupEnds(whole: Option<Effect>, rest: Option<Effect>, before: seq<KeyValue>, now: seq<KeyValue>,
                  left: seq<string>, start: nat, last: nat)
    requires GroupSoFar(whole, rest, before, now, left) && rest.Some? && rest.value.left == []
    requires last == if rest.value.takesNext then start + 1 else start
    ensures EffectDone(whole, before, now + rest.value.entries, left, start, last)
    ensures rest.value.entries == [] ==> EffectDone(whole, before, now, left, start, last)
  {
    assert now + [] == now;
  }

  lemma GroupStarts(whole: Option<Effect>, before: seq<KeyValue>)
    ensures GroupSoFar(whole, whole, before, before, [])
  {
    assert whole.Some? ==> [] + whole.value.left == whole.value.left;
  }

  lemma ImplicitLetter(cfg: Config, s: string, i: nat, next: Option<string>, whole: Option<Effect>,
                       before: seq<KeyValue>, now: seq<KeyValue>, left: seq<string>, d: Details)
    requires i + 1 < |s| && [s[i]] in cfg.options && d == cfg.options[[s[i]]] && d.hasImplicit
    requires AllPass(cfg, s, i) && LetterPasses(cfg, s, i)
    requires GroupSoFar(whole, GroupEffect(cfg, s, i, next), before, now, left)
    ensures GroupSoFar(whole, GroupEffect(cfg, s, i + 1, next), before, now + ImplicitShare(d).entries, left)
    ensures AllPass(cfg, s, i + 1)
  {
    GroupStep(whole, GroupEffect(cfg, s, i, next), before, now, left, ImplicitShare(d), GroupEffect(cfg, s, i + 1, next));
    assert left + [] == left;
  }

  predicate AllPass(cfg: Config, s: string, i: nat) {
    i <= |s| && forall k :: 0 <= k < i ==> LetterPasses(cfg, s, k)
  }

  lemma GroupErrs(cfg: Config, s: string, i: nat, next: Option<string>, whole: Option<Effect>, before: seq<KeyValue>,
                  now: seq<KeyValue>, left: seq<string>, error: Error)
    requires i < |s| && AllPass(cfg, s, i) && LetterFails(cfg, s, i, next, error)
    requires GroupSoFar(whole, GroupEffect(cfg, s, i, next), before, now, left)
    requires Rejects(cfg, GroupEffect(cfg, s, i, next))
    ensures Rejects(cfg, whole) && GroupFails(cfg, s, next, error)
  {
    GroupRejects(cfg, whole, GroupEffect(cfg, s, i, next), before, now, left);
  }

  /** When the rest of a group cannot be parsed, neither can the group. */
  lemma GroupRejects(cfg: Config, whole: Option<Effect>, rest: Option<Effect>, before: seq<KeyValue>,
                     now: seq<KeyValue>, left: seq<string>)
    requires GroupSoFar(whole, rest, before, now, left) && Rejects(cfg, rest)
    ensures Rejects(cfg, whole)
  {
    if rest.Some? {
      var k :| 0 <= k < |rest.value.entries| && !Acceptable(cfg, rest.value.entries[k]);
      var w := whole.value.entries;
      assert (before + w)[|now| + k] == (now + rest.value.entries)[|now| + k];
      assert w[|now| - |before| + k] == rest.value.entries[k];
    }
  }

  /** A flag adds its entries, and may wait for the next argument. */
  lemma AccountFlag(cfg: Config, args: seq<string>, roles: seq<Role>, entries: seq<KeyValue>, unmatched: seq<string>,
                    effect: Effect)
    requires 0 < |roles| < |args| && Accounted(cfg, args, roles, |args|, entries, unmatched)
    requires Closed(cfg, args, roles) && args[|roles|] != "--"
    requires EffectAt(cfg, args, |roles|) == Some(effect)
    ensures Accounted(cfg, args, roles + [Flag], |args|, entries + effect.entries, unmatched + effect.left)
    ensures CursorAt(cfg, args, roles + [Flag], |roles| + 1) == CursorAt(cfg, args, roles, |roles|)
    ensures TakesNext(cfg, args, roles + [Flag], |roles|) <==> effect.takesNext
  {
    AccountPlain(cfg, args, roles, |args|, entries, unmatched, Flag, Share(effect.entries, effect.left));
  }

  lemma AccountValue(cfg: Config, args: seq<string>, roles: seq<Role>, entries: seq<KeyValue>, unmatched: seq<string>)
    requires 0 < |roles| < |args| && Accounted(cfg, args, roles, |args|, entries, unmatched)
    requires TakesNext(cfg, args, roles, |roles| - 1)
    ensures Accounted(cfg, args, roles + [ValueOf], |args|, entries, unmatched)
    ensures CursorAt(cfg, args, roles + [ValueOf], |roles| + 1) == CursorAt(cfg, args, roles, |roles|)
  {
    AccountPlain(cfg, args, roles, |args|, entries, unmatched, ValueOf, Nothing);
    assert entries + [] == entries && unmatched + [] == unmatched;
  }

  lemma AccountPlain(cfg: Config, args: seq<string>, roles: seq<Role>, sep: nat, entries: seq<KeyValue>,
                     unmatched: seq<string>, role: Role, added: Share)
    requires Accounted(cfg, args, roles, sep, entries, unmatched) && |roles| < |args|
    requires role.Flag? || role.ValueOf? || role.Separator?
    requires KindOk(cfg, args, roles + [role], sep, |roles|)
    requires added == Contribution(cfg, args, roles + [role], |roles|)
    ensures Accounted(cfg, args, roles + [role], sep, entries + added.entries, unmatched + added.left)
    ensures CursorAt(cfg, args, roles + [role], |roles| + 1) == CursorAt(cfg, args, roles, |roles|)
  {
    CursorAfter(cfg, args, roles, role);
    AccountNext(cfg, args, roles, sep, entries, unmatched, role, added);
  }

  lemma GroupTakesExisting(cfg: Config, s: string, i: nat, next: Option<string>)
    requires i <= |s| && GroupEffect(cfg, s, i, next).Some? && GroupEffect(cfg, s, i, next).value.takesNext
    ensures next.Some?
    decreases |s| - i
  {
  }

  lemma TakenArgumentExists(cfg: Config, args: seq<string>, i: nat)
    requires i < |args| && EffectAt(cfg, args, i).Some? && EffectAt(cfg, args, i).value.takesNext
    ensures i + 1 < |args|
  {
    var desc := cfg.tokenise(args[i]).value;
    if desc.grouping { GroupTakesExisting(cfg, desc.name, 0, NextArg(args, i)); }
  }

  // ---- the accounting leaves no choice --------------------------------------------------------

  predicate SameKind(a: Role, b: Role) {
    && (a.Program? <==> b.Program?)
    && (a.Flag? <==> b.Flag?)
    && (a.ValueOf? <==> b.ValueOf?)
    && (a.Separator? <==> b.Separator?)
  }

  lemma KindIsDetermined(cfg: Config, args: seq<string>, a: seq<Role>, sepA: nat, b: seq<Role>, sepB: nat, i: nat)
    requires i < |a| && i < |b| && i < |args| && a[..i] == b[..i]
    requires RolesOk(cfg, args, a, sepA, i + 1) && RolesOk(cfg, args, b, sepB, i + 1)
    ensures SameKind(a[i], b[i])
  {
    RolesOkMeans(cfg, args, a, sepA, i + 1);
    RolesOkMeans(cfg, args, b, sepB, i + 1);
    assert RoleOk(cfg, args, a, sepA, i) && RoleOk(cfg, args, b, sepB, i);
    if 0 < i { assert a[i - 1] == a[..i][i - 1] == b[..i][i - 1] == b[i - 1]; }
    if sepA < i {
      assert a[sepA] == a[..i][sepA] == b[..i][sepA] == b[sepA];
      assert RoleOk(cfg, args, a, sepA, sepA) && RoleOk(cfg, args, b, sepB, sepA);
    }
    if sepB < i {
      assert a[sepB] == a[..i][sepB] == b[..i][sepB] == b[sepB];
      assert RoleOk(cfg, args, a, sepA, sepB) && RoleOk(cfg, args, b, sepB, sepB);
    }
  }

  lemma SlotIsDetermined(cfg: Config, args: seq<string>, a: seq<Role>, b: seq<Role>, i: nat)
    requires i < |a| && i < |b| && i < |args| && a[..i] == b[..i]
    requires SlotOk(cfg, args, a, i) && SlotOk(cfg, args, b, i) && SameKind(a[i], b[i])
    ensures a[i] == b[i]
  {
    var p := a[..i];
    assert a == p + a[i..] && b == p + b[i..];
    PrefixEntries(cfg, args, p, a[i..], i);
    PrefixEntries(cfg, args, p, b[i..], i);
    assert SlotAt(cfg, args, a, i) == SlotAt(cfg, args, b, i);
  }

  lemma OneMore(a: seq<Role>, n: nat)
    requires 0 < n <= |a|
    ensures a[..n] == a[..n - 1] + [a[n - 1]]
  {
  }

  /** Any two ways to account for the first `n` arguments are the same. */
  lemma {:induction false} RolesAreDetermined(cfg: Config, args: seq<string>, a: seq<Role>, sepA: nat,
                                              b: seq<Role>, sepB: nat, n: nat)
    requires n <= |a| && n <= |b| && n <= |args|
    requires RolesOk(cfg, args, a, sepA, n) && RolesOk(cfg, args, b, sepB, n)
    ensures a[..n] == b[..n]
  {
    if n > 0 {
      RolesAreDetermined(cfg, args, a, sepA, b, sepB, n - 1);
      KindIsDetermined(cfg, args, a, sepA, b, sepB, n - 1);
      SlotIsDetermined(cfg, args, a, b, n - 1);
      OneMore(a, n);
      OneMore(b, n);
    }
  }

  /** A command line has at most one parse. */
  lemma ParseIsUnique(cfg: Config, args: seq<string>, a: seq<Role>, sepA: nat, b: seq<Role>, sepB: nat)
    requires Parses(cfg, args, a, sepA) && Parses(cfg, args, b, sepB)
    ensures a == b && sepA == sepB
  {
    RolesAreDetermined(cfg, args, a, sepA, b, sepB, |args|);
    assert a[..|args|] == a && b[..|args|] == b;
    SameSeparator(cfg, args, a, sepA, b, sepB);
  }
}
