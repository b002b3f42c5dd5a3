/**
 The command-line parser: the loop over the arguments with its positional cursor, the value and
 default bookkeeping, and the counts it reports.

 Tokenising an argument and parsing a value's text are parameters: the results hold for either
 tokeniser of the library and for every type of value.
 */
module OptionParsers {
  import opened Wrappers
  import opened CommandLines
  import opened Accounting
  import opened Readings

  /** Where the main loop stopped: argument cursor, whether at `--`, positional cursor, leftovers so far. */
  datatype Progress = Progress(current: nat, atSeparator: bool, cursor: nat, unmatched: seq<string>)

  class OptionParser {
    const cfg: Config
    var sequential: seq<KeyValue>
    var defaults: seq<KeyValue>
    var parsed: map<nat, OptionValue>
    var keys: map<string, nat>

    constructor (cfg: Config)
      ensures this.cfg == cfg && sequential == [] && defaults == [] && parsed == map[] && keys == map[]
    {
      this.cfg := cfg;
      sequential, defaults, parsed, keys := [], [], map[], map[];
    }

    ghost predicate Valid()
      reads this
    {
      Tallied(cfg, parsed, sequential) && AllAccepted(cfg, sequential)
    }

    method ParseOption(n: string, arg: string) returns (r: Result<(), Error>)
      requires Registered(cfg.options) && Valid() && n in cfg.options
      modifies this`sequential, this`parsed
      ensures r.Ok? <==> cfg.accepts(cfg.options[n].key, arg)
      ensures r.Err? ==> r.error == IncorrectType
      ensures r.Ok? ==> Valid() && sequential == old(sequential) + [(cfg.options[n].Essential(), arg)]
      ensures SameFlags(old(parsed), parsed)
    {
      var d := cfg.options[n];
      var store := Stored(parsed, d.key);
      CountingKeepsFlags(parsed, d.key);
      parsed := parsed[d.key := store.(count := store.count + 1)];
      if !cfg.accepts(d.key, arg) {
        return Err(IncorrectType);
      }
      TallyOneMore(cfg, old(parsed), sequential, n, arg);
      AcceptedOneMore(cfg, sequential, n, arg);
      sequential := sequential + [(d.Essential(), arg)];
      return Ok(());
    }

    method CheckedParseArg(args: seq<string>, current: nat, n: string) returns (r: Result<nat, Error>)
      requires Registered(cfg.options) && Valid() && n in cfg.options && current < |args|
      modifies this`sequential, this`parsed
      ensures r.Ok? ==> Valid()
      ensures r.Ok? ==> var effect := LastEffect(cfg.options[n], NextArg(args, current));
                        && effect.Some? && sequential == old(sequential) + effect.value.entries
                        && r.value == (if effect.value.takesNext then current + 1 else current) < |args|
      ensures r.Err? ==> Rejects(cfg, LastEffect(cfg.options[n], NextArg(args, current)))
      ensures r.Err? ==> AloneFails(cfg, cfg.options[n], NextArg(args, current), r.error)
      ensures SameFlags(old(parsed), parsed)
    {
      var d := cfg.options[n];
      if current + 1 >= |args| {
        if d.hasImplicit {
          var done := ParseOption(n, d.implicitValue);
          if done.Err? {
            RejectedEntry(cfg, n, d.implicitValue, []);
            return Err(done.error);
          }
        } else {
          return Err(MissingArgument);
        }
      } else {
        if d.hasImplicit {
          var done := ParseOption(n, d.implicitValue);
          if done.Err? {
            RejectedEntry(cfg, n, d.implicitValue, []);
            return Err(done.error);
          }
        } else {
          var done := ParseOption(n, args[current + 1]);
          if done.Err? {
            RejectedEntry(cfg, n, args[current + 1], []);
            return Err(done.error);
          }
          return Ok(current + 1);
        }
      }
      return Ok(current);
    }

    /** A group of short options; the answer is the cursor and the unrecognised letters. */
    method ParseGroup(args: seq<string>, start: nat, s: string) returns (r: Result<(nat, seq<string>), Error>)
      requires Registered(cfg.options) && Valid() && start < |args|
      modifies this`sequential, this`parsed
      ensures r.Ok? ==> Valid() && r.value.0 < |args|
      ensures r.Ok? ==> EffectDone(GroupEffect(cfg, s, 0, NextArg(args, start)), old(sequential), sequential,
                                  r.value.1, start, r.value.0)
      ensures r.Err? ==> Rejects(cfg, GroupEffect(cfg, s, 0, NextArg(args, start)))
      ensures r.Err? ==> GroupFails(cfg, s, NextArg(args, start), r.error)
      ensures SameFlags(old(parsed), parsed)
    {
      var unmatched := [];
      ghost var next := NextArg(args, start);
      ghost var whole, before := GroupEffect(cfg, s, 0, next), sequential;
      GroupStarts(whole, before);
      for i := 0 to |s|
        invariant Valid() && SameFlags(old(parsed), parsed) && AllPass(cfg, s, i)
        invariant GroupSoFar(whole, GroupEffect(cfg, s, i, next), before, sequential, unmatched)
      {
        if [s[i]] in cfg.options {
          var done := StepLetter(args, start, s, i, whole, before, unmatched);
          if done.Err? { return Err(done.error); }
          if done.value.Some? { return Ok((done.value.value, unmatched)); }
        } else if cfg.allowUnrecognised {
          SkipLetter(cfg, s, i, next, whole, before, sequential, unmatched);
          unmatched := unmatched + ["-" + [s[i]]];
        } else {
          GroupErrs(cfg, s, i, next, whole, before, sequential, unmatched, NoSuchOption);
          return Err(NoSuchOption);
        }
      }
      GroupEnds(whole, GroupEffect(cfg, s, |s|, next), before, sequential, unmatched, start, start);
      return Ok((start, unmatched));
    }

    /** The loop goes on behind a letter with an implicit value; any other known letter ends it. */
    method StepLetter(args: seq<string>, start: nat, s: string, i: nat, ghost whole: Option<Effect>,
                      ghost before: seq<KeyValue>, ghost left: seq<string>)
      returns (r: Result<Option<nat>, Error>)
      requires Registered(cfg.options) && Valid() && start < |args| && i < |s| && [s[i]] in cfg.options
      requires AllPass(cfg, s, i)
      requires GroupSoFar(whole, GroupEffect(cfg, s, i, NextArg(args, start)), before, sequential, left)
      modifies this`sequential, this`parsed
      ensures SameFlags(old(parsed), parsed)
      ensures r.Ok? ==> Valid()
      ensures r.Err? ==> Rejects(cfg, whole) && GroupFails(cfg, s, NextArg(args, start), r.error)
      ensures r.Ok? && r.value.None? ==>
                && AllPass(cfg, s, i + 1)
                && GroupSoFar(whole, GroupEffect(cfg, s, i + 1, NextArg(args, start)), before, sequential, left)
      ensures r.Ok? && r.value.Some? ==>
                r.value.value < |args| && EffectDone(whole, before, sequential, left, start, r.value.value)
    {
      ghost var next, now := NextArg(args, start), sequential;
      var done := ParseLetter(args, start, s, i);
      if done.Err? {
        GroupErrs(cfg, s, i, next, whole, before, now, left, done.error);
        r := Err(done.error);
      } else if i + 1 == |s| || !cfg.options[[s[i]]].hasImplicit {
        GroupEnds(whole, GroupEffect(cfg, s, i, next), before, now, left, start, done.value);
        r := Ok(Some(done.value));
      } else {
        ImplicitLetter(cfg, s, i, next, whole, before, now, left, cfg.options[[s[i]]]);
        r := Ok(None);
      }
    }

    /** A known letter of a group: the last one, one with an implicit value, or one that takes the rest. */
    method ParseLetter(args: seq<string>, current: nat, s: string, i: nat) returns (r: Result<nat, Error>)
      requires Registered(cfg.options) && Valid() && current < |args| && i < |s| && [s[i]] in cfg.options
      modifies this`sequential, this`parsed
      ensures SameFlags(old(parsed), parsed)
      ensures r.Err? ==> Rejects(cfg, GroupEffect(cfg, s, i, NextArg(args, current)))
      ensures r.Err? ==> LetterFails(cfg, s, i, NextArg(args, current), r.error)
      ensures r.Ok? && i + 1 < |s| && cfg.options[[s[i]]].hasImplicit ==> LetterPasses(cfg, s, i)
      ensures r.Ok? ==> Valid() && current <= r.value < |args|
      ensures r.Ok? && i + 1 < |s| && cfg.options[[s[i]]].hasImplicit ==>
                r.value == current && sequential == old(sequential) + ImplicitShare(cfg.options[[s[i]]]).entries
      ensures r.Ok? && (i + 1 == |s| || !cfg.options[[s[i]]].hasImplicit) ==>
                var effect := GroupEffect(cfg, s, i, NextArg(args, current));
                && effect.Some? && sequential == old(sequential) + effect.value.entries && effect.value.left == []
                && r.value == if effect.value.takesNext then current + 1 else current
    {
      var name := [s[i]];
      var d := cfg.options[name];
      if i + 1 == |s| {
        r := CheckedParseArg(args, current, name);
      } else if d.hasImplicit {
        var done := ParseOption(name, d.implicitValue);
        ghost var later := GroupEffect(cfg, s, i + 1, NextArg(args, current));
        if done.Err? && later.Some? { RejectedEntry(cfg, name, d.implicitValue, later.value.entries); }
        r := if done.Err? then Err(done.error) else Ok(current);
      } else {
        var done := ParseOption(name, s[i + 1..]);
        if done.Err? { RejectedEntry(cfg, name, s[i + 1..], []); }
        r := if done.Err? then Err(done.error) else Ok(current);
      }
    }

    /** `m_parsed[key]` creates the entry it looks up. */
    method CountOf(key: nat) returns (count: nat)
      requires Registered(cfg.options) && Valid()
      modifies this`parsed
      ensures Valid() && count == Stored(old(parsed), key).count
      ensures forall k :: Stored(parsed, k) == Stored(old(parsed), k)
      ensures parsed.Keys == old(parsed).Keys + {key}
    {
      parsed := parsed[key := Stored(parsed, key)];
      count := parsed[key].count;
    }

    /** The turns of the positional loop that only move the cursor: single-valued options that have their value. */
    method SkipTaken(cursor: nat) returns (next: nat)
      requires Registered(cfg.options) && Valid() && cursor <= |cfg.positional|
      modifies this`parsed
      ensures Valid() && next == Slot(cfg, sequential, cursor)
      ensures forall k :: Stored(parsed, k) == Stored(old(parsed), k)
    {
      next := cursor;
      while next != |cfg.positional|
        invariant Valid() && next <= |cfg.positional|
        invariant forall k :: Stored(parsed, k) == Stored(old(parsed), k)
        invariant Slot(cfg, sequential, next) == Slot(cfg, sequential, cursor)
        decreases |cfg.positional| - next
      {
        var name := cfg.positional[next];
        if name !in cfg.options || cfg.options[name].isContainer {
          return;
        }
        var count := CountOf(cfg.options[name].key);
        SlotByCount(cfg, parsed, sequential, next, count);
        if count == 0 {
          return;
        }
        next := next + 1;
      }
    }

    method ConsumePositional(a: string, cursor: nat) returns (r: Result<(bool, nat), Error>)
      requires Registered(cfg.options) && Valid() && cursor <= |cfg.positional|
      modifies this`sequential, this`parsed
      ensures r.Ok? ==> Valid()
      ensures var slot := Slot(cfg, old(sequential), cursor);
              && (r.Ok? <==> slot == |cfg.positional| || SlotTakes(cfg, slot, a))
              && (r.Err? ==> SlotFails(cfg, slot, a, r.error))
              && (r.Ok? ==> r.value == (slot < |cfg.positional|, AfterSlot(cfg, slot)))
              && (r.Ok? ==> sequential == old(sequential) + SlotShare(cfg, slot, a).entries)
      ensures SameFlags(old(parsed), parsed)
    {
      var next := SkipTaken(cursor);
      if next == |cfg.positional| {
        return Ok((false, next));
      }
      var name := cfg.positional[next];
      if name !in cfg.options {
        return Err(NoSuchOption);
      }
      var done := ParseOption(name, a);
      r := if done.Err? then Err(done.error) else Ok((true, if cfg.options[name].isContainer then next else next + 1));
    }

    /** One argument that the tokeniser matched; the answer is the last argument it used. */
    method ParseMatched(args: seq<string>, current: nat, desc: ArguDesc) returns (r: Result<(nat, seq<string>), Error>)
      requires Registered(cfg.options) && Valid() && current < |args|
      modifies this`sequential, this`parsed
      ensures r.Ok? ==> Valid() && r.value.0 < |args|
      ensures r.Ok? ==> EffectDone(FlagEffect(cfg, args[current], desc, NextArg(args, current)), old(sequential), sequential,
                                   r.value.1, current, r.value.0)
      ensures r.Err? ==> Rejects(cfg, FlagEffect(cfg, args[current], desc, NextArg(args, current)))
      ensures r.Err? ==> FlagFails(cfg, desc, NextArg(args, current), r.error)
      ensures SameFlags(old(parsed), parsed)
    {
      if desc.grouping {
        r := ParseGroup(args, current, desc.name);
      } else if desc.name != "" {
        if desc.name !in cfg.options {
          if cfg.allowUnrecognised {
            return Ok((current, [args[current]]));
          }
          return Err(NoSuchOption);
        }
        if desc.setValue {
          var done := ParseOption(desc.name, desc.value);
          if done.Err? { RejectedEntry(cfg, desc.name, desc.value, []); }
          r := if done.Err? then Err(done.error) else Ok((current, []));
        } else {
          var done := CheckedParseArg(args, current, desc.name);
          r := if done.Err? then Err(done.error) else Ok((done.value, []));
        }
      } else {
        return Ok((current, []));
      }
    }

    /** One argument that the tokeniser did not match. */
    method ParseUnmatched(arg: string, cursor: nat) returns (r: Result<(bool, nat), Error>)
      requires Registered(cfg.options) && Valid() && cursor <= |cfg.positional|
      modifies this`sequential, this`parsed
      ensures r.Ok? ==> Valid()
      ensures var slot := Slot(cfg, old(sequential), cursor);
              && (r.Ok? <==> (LooksLikeFlag(arg) ==> cfg.allowUnrecognised) &&
                             (slot == |cfg.positional| || SlotTakes(cfg, slot, arg)))
              && (r.Err? ==> if LooksLikeFlag(arg) && !cfg.allowUnrecognised then r.error == InvalidSyntax
                             else SlotFails(cfg, slot, arg, r.error))
              && (r.Ok? ==> r.value == (slot < |cfg.positional|, AfterSlot(cfg, slot)))
              && (r.Ok? ==> sequential == old(sequential) + SlotShare(cfg, slot, arg).entries)
      ensures SameFlags(old(parsed), parsed)
    {
      if LooksLikeFlag(arg) && !cfg.allowUnrecognised {
        return Err(InvalidSyntax);
      }
      r := ConsumePositional(arg, cursor);
    }

    /** The body of the main loop. */
    method ParseArgument(args: seq<string>, current: nat, cursor: nat, unmatched: seq<string>, ghost roles: seq<Role>)
      returns (r: Result<Progress, Error>, ghost roles': seq<Role>)
      requires Registered(cfg.options) && Valid() && current < |args| && cursor <= |cfg.positional|
      requires InLoop(cfg, args, roles, current, cursor, sequential, unmatched)
      modifies this`sequential, this`parsed
      ensures r.Ok? ==> Valid() && current < r.value.current <= |args| && r.value.cursor <= |cfg.positional|
      ensures r.Ok? && !r.value.atSeparator ==>
                InLoop(cfg, args, roles', r.value.current, r.value.cursor, sequential, r.value.unmatched)
      ensures r.Ok? && r.value.atSeparator ==>
                AfterLoop(cfg, args, roles', r.value.current, r.value.cursor, r.value.current - 1, sequential,
                          r.value.unmatched)
      ensures r.Err? ==>
                && args[current] != "--" && Faulty(cfg, args, current, old(sequential), cursor, false)
                && FailsAt(cfg, args, current, old(sequential), cursor, false, r.error)
      ensures SameFlags(old(parsed), parsed)
    {
      roles' := roles;
      if args[current] == "--" {
        AccountSeparator(cfg, args, roles, current, cursor, sequential, unmatched);
        return Ok(Progress(current + 1, true, cursor, unmatched)), roles + [Separator];
      }
      var desc := cfg.tokenise(args[current]);
      if desc.None? {
        r, roles' := StepUnmatched(args, current, cursor, unmatched, roles);
      } else {
        r, roles' := StepMatched(args, current, cursor, unmatched, desc.value, roles);
      }
    }

    method StepUnmatched(args: seq<string>, current: nat, cursor: nat, unmatched: seq<string>, ghost roles: seq<Role>)
      returns (r: Result<Progress, Error>, ghost roles': seq<Role>)
      requires Registered(cfg.options) && Valid() && current < |args| && cursor <= |cfg.positional|
      requires InLoop(cfg, args, roles, current, cursor, sequential, unmatched)
      requires args[current] != "--" && cfg.tokenise(args[current]).None?
      modifies this`sequential, this`parsed
      ensures r.Ok? ==> Valid() && r.value.current == current + 1 && r.value.cursor <= |cfg.positional|
      ensures r.Ok? ==> !r.value.atSeparator
      ensures r.Ok? ==> InLoop(cfg, args, roles', current + 1, r.value.cursor, sequential, r.value.unmatched)
      ensures r.Err? ==> Faulty(cfg, args, current, old(sequential), cursor, false)
      ensures r.Err? ==> FailsAt(cfg, args, current, old(sequential), cursor, false, r.error)
      ensures SameFlags(old(parsed), parsed)
    {
      roles' := roles;
      var done := ParseUnmatched(args[current], cursor);
      if done.Err? { return Err(done.error), roles; }
      roles' := AccountUnmatched(cfg, args, roles, current, cursor, old(sequential), unmatched);
      var unmatched' := unmatched + if done.value.0 then [] else [args[current]];
      return Ok(Progress(current + 1, false, done.value.1, unmatched')), roles';
    }

    method StepMatched(args: seq<string>, current: nat, cursor: nat, unmatched: seq<string>, desc: ArguDesc,
                       ghost roles: seq<Role>)
      returns (r: Result<Progress, Error>, ghost roles': seq<Role>)
      requires Registered(cfg.options) && Valid() && current < |args| && cursor <= |cfg.positional|
      requires InLoop(cfg, args, roles, current, cursor, sequential, unmatched)
      requires args[current] != "--" && cfg.tokenise(args[current]) == Some(desc)
      modifies this`sequential, this`parsed
      ensures r.Ok? ==> Valid() && current < r.value.current <= |args| && r.value.cursor == cursor
      ensures r.Ok? ==> !r.value.atSeparator
      ensures r.Ok? ==> InLoop(cfg, args, roles', r.value.current, cursor, sequential, r.value.unmatched)
      ensures r.Err? ==> Faulty(cfg, args, current, old(sequential), cursor, false)
      ensures r.Err? ==> FailsAt(cfg, args, current, old(sequential), cursor, false, r.error)
      ensures SameFlags(old(parsed), parsed)
    {
      var done := ParseMatched(args, current, desc);
      if done.Err? {
        MatchedFails(cfg, args, current, desc, old(sequential), cursor, done.error);
        return Err(done.error), roles;
      }
      var current', unmatched' := done.value.0 + 1, unmatched + done.value.1;
      roles' := AccountMatched(cfg, args, roles, current, cursor, old(sequential), unmatched, desc,
                               sequential, done.value.1, current', unmatched');
      return Ok(Progress(current', false, cursor, unmatched')), roles';
    }

    /** The loop up to the first `--` that is not a value. */
    method MainLoop(args: seq<string>) returns (r: Result<Progress, Error>, ghost roles: seq<Role>)
      requires Registered(cfg.options) && Valid() && sequential == [] && args != []
      modifies this`sequential, this`parsed
      ensures r.Ok? ==> Valid() && r.value.current <= |args| && r.value.cursor <= |cfg.positional|
      ensures r.Ok? && !r.value.atSeparator ==>
                && r.value.current == |args|
                && InLoop(cfg, args, roles, |args|, r.value.cursor, sequential, r.value.unmatched)
      ensures r.Ok? && r.value.atSeparator ==>
                && 2 <= r.value.current
                && AfterLoop(cfg, args, roles, r.value.current, r.value.cursor, r.value.current - 1, sequential,
                             r.value.unmatched)
      ensures r.Err? ==> Unparsable(cfg, args) && Blames(cfg, args, r.error)
      ensures SameFlags(old(parsed), parsed)
    {
      var current: nat, cursor: nat, unmatched := 1, 0, [];
      roles := [Program];
      ProgramFirst(cfg, args);
      while current != |args|
        invariant Valid() && 1 <= current <= |args| && cursor <= |cfg.positional|
        invariant InLoop(cfg, args, roles, current, cursor, sequential, unmatched)
        invariant SameFlags(old(parsed), parsed)
        decreases |args| - current
      {
        ghost var before, roles0 := sequential, roles;
        var step;
        step, roles := ParseArgument(args, current, cursor, unmatched, roles);
        if step.Err? {
          FaultInLoop(cfg, args, roles0, current, cursor, before, unmatched);
          BlameInLoop(cfg, args, roles0, current, cursor, before, unmatched, step.error);
        }
        if step.Err? || step.value.atSeparator {
          return step, roles;
        }
        current, cursor, unmatched := step.value.current, step.value.cursor, step.value.unmatched;
      }
      return Ok(Progress(current, false, cursor, unmatched)), roles;
    }

    method ParseDefault(n: string) returns (r: Result<(), Error>)
      requires n in cfg.options
      modifies this`defaults, this`parsed
      ensures var d := cfg.options[n];
              && parsed == old(parsed)[d.key := Stored(old(parsed), d.key).(isDefault := true)]
              && (r.Ok? <==> cfg.accepts(d.key, d.defaultValue)) && (r.Err? ==> r.error == IncorrectType)
              && (r.Ok? ==> defaults == old(defaults) + [(d.Essential(), d.defaultValue)])
    {
      var d := cfg.options[n];
      parsed := parsed[d.key := Stored(parsed, d.key).(isDefault := true)];
      if !cfg.accepts(d.key, d.defaultValue) {
        return Err(IncorrectType);
      }
      defaults := defaults + [(d.Essential(), d.defaultValue)];
      return Ok(());
    }

    /** Visits every name of the option table, in whatever order the table yields them. */
    method ParseDefaults() returns (r: Result<(), Error>)
      requires Registered(cfg.options) && Valid() && NoDefaults(cfg, parsed) && defaults == []
      modifies this`defaults, this`parsed
      ensures r.Ok? <==> DefaultsOk(cfg, sequential)
      ensures r.Err? ==> r.error == IncorrectType
      ensures r.Ok? ==> Valid() && DefaultsListed(cfg, sequential, defaults)
    {
      var todo := cfg.options.Keys;
      ghost var done: set<nat> := {};
      while todo != {}
        invariant Valid() && todo <= cfg.options.Keys
        invariant forall n :: n in cfg.options && n !in todo ==> cfg.options[n].key in done
        invariant FlagsDone(cfg, parsed, sequential, done) && ListDone(cfg, sequential, defaults, done)
        invariant DoneOk(cfg, sequential, done)
        decreases |todo|
      {
        var n :| n in todo;
        r := VisitDefault(n, done);
        if r.Err? { return; }
        todo, done := todo - {n}, done + {cfg.options[n].key};
      }
      return Ok(());
    }

    method VisitDefault(n: string, ghost done: set<nat>) returns (r: Result<(), Error>)
      requires Registered(cfg.options) && Valid() && n in cfg.options
      requires FlagsDone(cfg, parsed, sequential, done) && ListDone(cfg, sequential, defaults, done)
      requires DoneOk(cfg, sequential, done)
      modifies this`defaults, this`parsed
      ensures r.Ok? ==> Valid() && DoneOk(cfg, sequential, done + {cfg.options[n].key})
      ensures r.Err? ==> !DefaultsOk(cfg, sequential) && r.error == IncorrectType
      ensures var k := cfg.options[n].key;
              r.Ok? ==> FlagsDone(cfg, parsed, sequential, done + {k}) && ListDone(cfg, sequential, defaults, done + {k})
    {
      AllIsolated(cfg, n);
      var d := cfg.options[n];
      var count := CountOf(d.key);
      FlagsStay(cfg, old(parsed), parsed, sequential, done);
      assert count == Occurrences(sequential, d.Essential());
      if d.hasDefault && count == 0 && !parsed[d.key].isDefault {
        TakeDefault(cfg, parsed, sequential, defaults, done, n);
        TallyStays(cfg, parsed, sequential, d.key);
        r := ParseDefault(n);
      } else {
        SkipDefault(cfg, parsed, sequential, defaults, done, n);
        return Ok(());
      }
    }

    /** Behind `--`: positionals as long as they are taken. */
    method FillPositionals(args: seq<string>, start: nat, cursor0: nat, unmatched: seq<string>, ghost roles0: seq<Role>,
                           ghost sep: nat)
      returns (r: Result<(), Error>, current: nat, cursor: nat, ghost roles: seq<Role>)
      requires Registered(cfg.options) && Valid() && start <= |args| && cursor0 <= |cfg.positional| && start == sep + 1
      requires AfterLoop(cfg, args, roles0, start, cursor0, sep, sequential, unmatched)
      modifies this`sequential, this`parsed
      ensures r.Ok? ==> Valid() && start <= current <= |args| && cursor <= |cfg.positional|
      ensures r.Ok? ==> AfterLoop(cfg, args, roles, current, cursor, sep, sequential, unmatched)
      ensures r.Ok? && current < |args| ==> Slot(cfg, sequential, cursor) == |cfg.positional|
      ensures r.Ok? ==> roles0 <= roles && old(sequential) <= sequential
      ensures r.Err? ==> Unparsable(cfg, args) && Blames(cfg, args, r.error)
    {
      current, cursor, roles := start, cursor0, roles0;
      while current < |args|
        invariant Valid() && start <= current <= |args| && cursor <= |cfg.positional|
        invariant AfterLoop(cfg, args, roles, current, cursor, sep, sequential, unmatched)
        invariant roles0 <= roles && old(sequential) <= sequential
      {
        var done;
        ghost var before, entries := roles, sequential;
        done, roles := StepPositional(args, current, cursor, unmatched, roles, sep);
        if done.Err? { return Err(done.error), current, cursor, roles; }
        PrefixTrans(roles0, before, roles);
        PrefixTrans(old(sequential), entries, sequential);
        if !done.value.0 {
          break;
        }
        current, cursor := current + 1, done.value.1;
      }
      return Ok(()), current, cursor, roles;
    }

    method StepPositional(args: seq<string>, current: nat, cursor: nat, unmatched: seq<string>, ghost roles: seq<Role>,
                          ghost sep: nat)
      returns (r: Result<(bool, nat), Error>, ghost roles': seq<Role>)
      requires Registered(cfg.options) && Valid() && current < |args| && cursor <= |cfg.positional| && sep < current
      requires AfterLoop(cfg, args, roles, current, cursor, sep, sequential, unmatched)
      modifies this`sequential, this`parsed
      ensures r.Ok? ==> Valid() && r.value.1 <= |cfg.positional| && old(sequential) <= sequential && roles <= roles'
      ensures r.Ok? && r.value.0 ==> AfterLoop(cfg, args, roles', current + 1, r.value.1, sep, sequential, unmatched)
      ensures r.Ok? && !r.value.0 ==>
                roles' == roles && sequential == old(sequential) && Slot(cfg, sequential, cursor) == |cfg.positional|
      ensures r.Err? ==> Unparsable(cfg, args) && Blames(cfg, args, r.error)
    {
      roles' := roles;
      r := ConsumePositional(args[current], cursor);
      if r.Err? {
        FaultBehind(cfg, args, roles, current, cursor, sep, old(sequential), unmatched);
        BlameBehind(cfg, args, roles, current, cursor, sep, old(sequential), unmatched, r.error);
      } else if r.value.0 {
        ghost var slot := Slot(cfg, old(sequential), cursor);
        roles' := AccountRemaining(cfg, args, roles, current, cursor, sep, old(sequential), unmatched, slot, args[current]);
        assert unmatched + [] == unmatched;
      }
    }

    /** And leftovers from then on. */
    method ConsumeRemaining(args: seq<string>, start: nat, cursor0: nat, unmatched0: seq<string>, ghost roles0: seq<Role>,
                            ghost sep: nat)
      returns (r: Result<seq<string>, Error>, ghost roles: seq<Role>)
      requires Registered(cfg.options) && Valid() && start <= |args| && cursor0 <= |cfg.positional| && start == sep + 1
      requires AfterLoop(cfg, args, roles0, start, cursor0, sep, sequential, unmatched0)
      modifies this`sequential, this`parsed
      ensures r.Ok? ==> Valid() && Remaining(cfg, args, roles, sep, sequential, r.value)
      ensures r.Err? ==> Unparsable(cfg, args) && Blames(cfg, args, r.error)
      ensures r.Ok? ==> roles0 <= roles && old(sequential) <= sequential
    {
      var filled, current: nat, cursor: nat;
      filled, current, cursor, roles := FillPositionals(args, start, cursor0, unmatched0, roles0, sep);
      if filled.Err? { return Err(filled.error), roles; }
      var unmatched := CollectLeftovers(args, current, unmatched0);
      roles := AllLeftover(cfg, args, roles, current, cursor, sep, sequential, unmatched0, unmatched);
      return Ok(unmatched), roles;
    }

    method CollectLeftovers(args: seq<string>, start: nat, unmatched0: seq<string>) returns (unmatched: seq<string>)
      requires start <= |args|
      ensures unmatched == unmatched0 + args[start..]
    {
      var current := start;
      unmatched := unmatched0;
      while current != |args|
        invariant start <= current <= |args| && unmatched == unmatched0 + args[start..current]
      {
        assert args[start..current + 1] == args[start..current] + [args[current]];
        unmatched := unmatched + [args[current]];
        current := current + 1;
      }
    }

    method FinaliseAliases()
      requires Registered(cfg.options) && Valid() && keys == map[]
      modifies this`keys, this`parsed
      ensures Valid() && forall n <- cfg.options :: n in keys && keys[n] == cfg.options[n].key && keys[n] in parsed
      ensures KeysKnown(cfg, keys)
    {
      var todo := cfg.options.Keys;
      while todo != {}
        invariant Valid() && todo <= cfg.options.Keys && KeysSound(cfg, keys) && KeysKnown(cfg, keys)
        invariant forall n :: n in cfg.options && n !in todo ==> n in keys && cfg.options[n].key in parsed
      {
        var m :| m in todo;
        RegisterNames(m);
        var _ := CountOf(cfg.options[m].key);
        todo := todo - {m};
      }
    }

    /** Enters every name of one option into the alias table. */
    method RegisterNames(m: string)
      requires Registered(cfg.options) && Valid() && m in cfg.options && KeysSound(cfg, keys) && KeysKnown(cfg, keys)
      modifies this`keys
      ensures KeysSound(cfg, keys) && KeysKnown(cfg, keys) && old(keys).Keys <= keys.Keys && m in keys
    {
      var d := cfg.options[m];
      keys := keys[d.shortName := d.key];
      assert KeysSound(cfg, keys);
      for i := 0 to |d.longNames|
        invariant KeysSound(cfg, keys) && KeysKnown(cfg, keys) && old(keys).Keys + {d.shortName} <= keys.Keys
        invariant forall j :: 0 <= j < i ==> d.longNames[j] in keys
      {
        assert At(cfg.options, d.longNames[i], d);
        keys := keys[d.longNames[i] := d.key];
      }
    }

    /** What follows the main loop. `before` is what the main loop recorded. */
    method Finish(args: seq<string>, loop: Progress, ghost roles0: seq<Role>)
      returns (r: Result<ParseResult, Error>, ghost roles: seq<Role>)
      requires Registered(cfg.options) && Valid() && NoDefaults(cfg, parsed) && defaults == [] && keys == map[]
      requires loop.current <= |args| && loop.cursor <= |cfg.positional|
      requires loop.atSeparator ==>
                 && 1 <= loop.current
                 && AfterLoop(cfg, args, roles0, loop.current, loop.cursor, loop.current - 1, sequential, loop.unmatched)
      requires !loop.atSeparator ==> InLoop(cfg, args, roles0, |args|, loop.cursor, sequential, loop.unmatched)
      modifies this
      ensures r.Ok? ==> AllAccepted(cfg, r.value.sequential) && DefaultsOk(cfg, old(sequential))
      ensures r.Err? ==> Unparsable(cfg, args) && Blames(cfg, args, r.error)
      ensures r.Ok? ==> CountsTally(cfg, r.value) && DefaultsListed(cfg, old(sequential), r.value.defaults)
      ensures r.Ok? ==> roles0 <= roles && old(sequential) <= r.value.sequential
      ensures r.Ok? && loop.atSeparator ==>
                Remaining(cfg, args, roles, loop.current - 1, r.value.sequential, r.value.unmatched)
      ensures r.Ok? && !loop.atSeparator ==>
                roles == roles0 && r.value.sequential == old(sequential) && r.value.unmatched == loop.unmatched
    {
      roles := roles0;
      var unmatched := loop.unmatched;
      var filled := ParseDefaults();
      if filled.Err? {
        DefaultsRefute(cfg, args, roles, if loop.atSeparator then loop.current - 1 else |args|, sequential, unmatched);
        BlameDefault(cfg, args, roles, if loop.atSeparator then loop.current - 1 else |args|, sequential);
        return Err(filled.error), roles;
      }
      if loop.atSeparator {
        var rest;
        rest, roles := ConsumeRemaining(args, loop.current, loop.cursor, unmatched, roles0, loop.current - 1);
        if rest.Err? { return Err(rest.error), roles; }
        unmatched := rest.value;
      }
      FinaliseAliases();
      return Ok(ParseResult(keys, parsed, sequential, defaults, unmatched)), roles;
    }

    /**
     The whole parse. The ghost results are the reading of the command line: the roles of the arguments,
     what each adds, and the place of the first `--`.
     */
    method Parse(args: seq<string>)
      returns (r: Result<ParseResult, Error>, ghost roles: seq<Role>, ghost shares: seq<Share>, ghost sep: nat)
      requires Registered(cfg.options) && args != []
      requires sequential == [] && defaults == [] && parsed == map[] && keys == map[]
      modifies this
      ensures r.Ok? ==> Sensible(cfg, args, roles, shares, sep)
      ensures r.Ok? ==> Sum(shares) == Share(r.value.sequential, r.value.unmatched)
      ensures r.Ok? ==> Counted(cfg, r.value) && ListsDefaults(cfg, Sum(shares[..sep]).entries, r.value.defaults)
      ensures r.Ok? <==> exists roles, shares, sep: nat :: Sensible(cfg, args, roles, shares, sep)
      ensures r.Err? ==> Blames(cfg, args, r.error)
    {
      EmptyTally(cfg);
      roles, shares, sep := [], [], |args|;
      var loop;
      loop, roles := MainLoop(args);
      if loop.Err? {
        NothingSensible(cfg, args);
        return Err(loop.error), roles, shares, sep;
      }
      ghost var given, roles0 := sequential, roles;
      r, roles := Finish(args, loop.value, roles0);
      if loop.value.atSeparator { sep := loop.value.current - 1; }
      if r.Err? {
        NothingSensible(cfg, args);
      } else {
        if loop.value.atSeparator { EntriesBeforeSeparator(cfg, args, roles0, roles, sep); }
        shares := Shares(cfg, args, roles);
        ParsesIsSensible(cfg, args, roles, sep);
        ReportedDefaults(cfg, args, roles, sep, given, r.value.defaults);
        ReportedCounts(cfg, r.value);
        SumOfShares(cfg, args, roles, |args|);
        assert shares[..|args|] == shares;
      }
    }
  }

  datatype ParseResult = ParseResult(keys: map<string, nat>, values: map<nat, OptionValue>, sequential: seq<KeyValue>,
                                     defaults: seq<KeyValue>, unmatched: seq<string>)
  {
    function Count(o: string): nat {
      if o in keys && keys[o] in values then values[keys[o]].count else 0
    }
  }

  /**
   The reported count of any name is the number of its option's entries, hence the same for every alias,
   and 0 for a name of no option.
   */
  ghost predicate Counted(cfg: Config, result: ParseResult) {
    && (forall n <- cfg.options :: result.Count(n) == |Places(result.sequential, cfg.options[n].Essential())|)
    && (forall m, n :: m in cfg.options && n in cfg.options && cfg.options[m] == cfg.options[n] ==>
          result.Count(m) == result.Count(n))
    && forall o :: o !in cfg.options && o != "" ==> result.Count(o) == 0
  }

  ghost predicate CountsTally(cfg: Config, result: ParseResult) {
    && (forall n <- cfg.options :: result.Count(n) == Occurrences(result.sequential, cfg.options[n].Essential()))
    && forall o :: o !in cfg.options && o != "" ==> o !in result.keys
  }

  lemma ReportedCounts(cfg: Config, result: ParseResult)
    requires CountsTally(cfg, result)
    ensures Counted(cfg, result)
  {
    forall n <- cfg.options ensures result.Count(n) == |Places(result.sequential, cfg.options[n].Essential())| {
      OccurrencesIsSize(result.sequential, cfg.options[n].Essential());
    }
  }
}
