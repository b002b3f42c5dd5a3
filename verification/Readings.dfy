/**
 The accounting is the reading: what the parser makes of a command line is what the command line says,
 and the error it throws is that of the first argument that cannot be read.
 */
module Readings {
  import opened Wrappers
  import opened CommandLines
  import opened Accounting

  // ---- the accounting is the reading ----------------------------------------------------------

  lemma {:induction false} SumConcat(a: seq<Share>, b: seq<Share>)
    ensures Sum(a + b) == Share(Sum(a).entries + Sum(b).entries, Sum(a).left + Sum(b).left)
  {
    if b == [] {
      assert a + b == a;
    } else {
      var init, last := b[..|b| - 1], b[|b| - 1];
      assert (a + b)[..|a + b| - 1] == a + init && (a + b)[|a + b| - 1] == last;
      SumConcat(a, init);
    }
  }

  lemma SumCons(first: Share, rest: seq<Share>)
    ensures Sum([first] + rest) == Share(first.entries + Sum(rest).entries, first.left + Sum(rest).left)
  {
    SumOfOne(first);
    SumConcat([first], rest);
  }

  lemma SumOfOne(share: Share)
    ensures Sum([share]) == share
  {
    assert [share][..0] == [];
  }

  lemma {:induction false} SumOfNothing(shares: seq<Share>)
    requires forall i :: 0 <= i < |shares| ==> shares[i] == Nothing
    ensures Sum(shares) == Nothing
  {
    if shares != [] { SumOfNothing(shares[..|shares| - 1]); }
  }

  /** The letters of a group from the `i`-th on. */
  predicate LettersFrom(cfg: Config, s: string, i: nat, stop: nat, taken: Option<string>, letters: seq<Share>) {
    && i <= |s| && |letters| == |s| - i && (i == |s| ==> taken == None) && (i < |s| ==> i <= stop < |s|)
    && (i < |s| && stop < |s| - 1 ==> [s[stop]] in cfg.options)
    && forall k :: 0 <= k < |letters| ==> ReadsLetter(cfg, s, i + k, stop, taken, letters[k])
  }

  lemma LettersCons(cfg: Config, s: string, i: nat, stop: nat, taken: Option<string>, first: Share, rest: seq<Share>)
    requires i + 1 < |s| && i < stop && LettersFrom(cfg, s, i + 1, stop, taken, rest)
    requires ReadsLetter(cfg, s, i, stop, taken, first)
    ensures LettersFrom(cfg, s, i, stop, taken, [first] + rest)
  {
    var letters := [first] + rest;
    forall k | 0 <= k < |letters| ensures ReadsLetter(cfg, s, i + k, stop, taken, letters[k]) {
      if 0 < k {
        assert letters[k] == rest[k - 1];
        assert ReadsLetter(cfg, s, i + 1 + (k - 1), stop, taken, rest[k - 1]);
      }
    }
  }

  /** A group that is read up to its letter `i`, with what that letter takes. */
  lemma LettersStop(cfg: Config, s: string, i: nat, taken: Option<string>, last: Share) returns (letters: seq<Share>)
    requires i < |s| && ReadsLetter(cfg, s, i, i, taken, last) && (i < |s| - 1 ==> [s[i]] in cfg.options)
    ensures LettersFrom(cfg, s, i, i, taken, letters) && Sum(letters) == last
  {
    var rest := seq(|s| - i - 1, _ => Nothing);
    letters := [last] + rest;
    SumOfNothing(rest);
    SumCons(last, rest);
  }

  lemma {:induction false} EffectIsRead(cfg: Config, s: string, i: nat, next: Option<string>, taken: Option<string>)
    returns (stop: nat, letters: seq<Share>)
    requires i <= |s| && GroupEffect(cfg, s, i, next).Some?
    requires taken == if GroupEffect(cfg, s, i, next).value.takesNext then next else None
    ensures LettersFrom(cfg, s, i, stop, taken, letters)
    ensures var e := GroupEffect(cfg, s, i, next).value; Sum(letters) == Share(e.entries, e.left)
    decreases |s| - i
  {
    stop, letters := i, [];
    if i < |s| {
      var e := GroupEffect(cfg, s, i, next).value;
      var name := [s[i]];
      if i + 1 == |s| || (name in cfg.options && !cfg.options[name].hasImplicit) {
        assert i + 1 == |s| && name !in cfg.options ==> GroupEffect(cfg, s, |s|, next) == Some(Effect([], [], false));
        letters := LettersStop(cfg, s, i, taken, Share(e.entries, e.left));
      } else {
        var first := if name in cfg.options then ImplicitShare(cfg.options[name]) else Share([], ["-" + name]);
        var rest;
        stop, rest := EffectIsRead(cfg, s, i + 1, next, taken);
        letters := [first] + rest;
        LettersCons(cfg, s, i, stop, taken, first, rest);
        SumCons(first, rest);
      }
    }
  }

  lemma OneEntry(share: Share)
    requires |share.entries| == 1
    ensures share.entries == [share.entries[0]]
  {
  }

  /** The letter at which the group stops. */
  lemma StopIsEffect(cfg: Config, s: string, i: nat, next: Option<string>, taken: Option<string>, share: Share)
    requires i < |s| && ReadsLetter(cfg, s, i, i, taken, share) && (i < |s| - 1 ==> [s[i]] in cfg.options)
    requires taken.Some? ==> next == taken
    ensures GroupEffect(cfg, s, i, next) == Some(Effect(share.entries, share.left, taken.Some?))
  {
    if [s[i]] in cfg.options {
      OneEntry(share);
    } else {
      assert GroupEffect(cfg, s, |s|, next) == Some(Effect([], [], false));
      assert share.entries + [] == share.entries && share.left + [] == share.left;
    }
  }

  /** A letter in front of it. */
  lemma PassIsEffect(cfg: Config, s: string, i: nat, stop: nat, next: Option<string>, taken: Option<string>, share: Share)
    requires i < stop < |s| && ReadsLetter(cfg, s, i, stop, taken, share)
    ensures GroupEffect(cfg, s, i, next) == Before(share, GroupEffect(cfg, s, i + 1, next))
  {
    if [s[i]] in cfg.options { OneEntry(share); }
  }

  lemma LettersTail(cfg: Config, s: string, i: nat, stop: nat, taken: Option<string>, letters: seq<Share>)
    requires i < |s| && LettersFrom(cfg, s, i, stop, taken, letters)
    ensures ReadsLetter(cfg, s, i, stop, taken, letters[0])
    ensures i < stop ==> LettersFrom(cfg, s, i + 1, stop, taken, letters[1..])
    ensures i == stop ==> forall k :: 0 <= k < |letters| - 1 ==> letters[1..][k] == Nothing
  {
    var rest := letters[1..];
    assert ReadsLetter(cfg, s, i + 0, stop, taken, letters[0]);
    forall k | 0 <= k < |rest| ensures ReadsLetter(cfg, s, i + 1 + k, stop, taken, rest[k]) {
      assert ReadsLetter(cfg, s, i + (1 + k), stop, taken, letters[1 + k]);
    }
  }

  lemma {:induction false} ReadIsEffect(cfg: Config, s: string, i: nat, next: Option<string>, taken: Option<string>,
                                        stop: nat, letters: seq<Share>)
    requires LettersFrom(cfg, s, i, stop, taken, letters) && (taken.Some? ==> next == taken)
    ensures GroupEffect(cfg, s, i, next) == Some(Effect(Sum(letters).entries, Sum(letters).left, taken.Some?))
    decreases |s| - i
  {
    if i < |s| {
      var first, rest := letters[0], letters[1..];
      assert letters == [first] + rest;
      LettersTail(cfg, s, i, stop, taken, letters);
      SumCons(first, rest);
      if i == stop {
        SumOfNothing(rest);
        assert Sum(letters) == first;
        StopIsEffect(cfg, s, i, next, taken, first);
      } else {
        ReadIsEffect(cfg, s, i + 1, next, taken, stop, rest);
        PassIsEffect(cfg, s, i, stop, next, taken, first);
      }
    }
  }

  lemma FlagReadsIff(cfg: Config, arg: string, desc: ArguDesc, next: Option<string>, taken: Option<string>, share: Share)
    requires taken.Some? ==> next == taken
    ensures ReadsFlag(cfg, arg, desc, taken, share) <==>
            FlagEffect(cfg, arg, desc, next) == Some(Effect(share.entries, share.left, taken.Some?))
  {
    var s := desc.name;
    if desc.grouping && ReadsFlag(cfg, arg, desc, taken, share) {
      var stop: nat, letters :| ReadsLetters(cfg, s, stop, taken, letters) && share == Sum(letters);
      ReadIsEffect(cfg, s, 0, next, taken, stop, letters);
    }
    if desc.grouping && GroupEffect(cfg, s, 0, next) == Some(Effect(share.entries, share.left, taken.Some?)) {
      var stop, letters := EffectIsRead(cfg, s, 0, next, taken);
      forall j | 0 <= j < |s| ensures ReadsLetter(cfg, s, j, stop, taken, letters[j]) {
        assert ReadsLetter(cfg, s, 0 + j, stop, taken, letters[j]);
      }
      assert ReadsLetters(cfg, s, stop, taken, letters) && share == Sum(letters);
    }
    if !desc.grouping && ReadsFlag(cfg, arg, desc, taken, share) && |share.entries| == 1 {
      assert share.entries == [share.entries[0]];
    }
  }

  lemma {:induction false} NoOccurrences(entries: seq<KeyValue>, name: string)
    ensures Occurrences(entries, name) == 0 <==> forall i :: 0 <= i < |entries| ==> entries[i].0 != name
  {
    if entries != [] {
      var init := entries[..|entries| - 1];
      NoOccurrences(init, name);
      assert forall i :: 0 <= i < |init| ==> init[i] == entries[i];
    }
  }

  lemma OpenByCount(cfg: Config, entries: seq<KeyValue>, p: nat)
    requires p < |cfg.positional|
    ensures Open(cfg, entries, p) <==>
            (cfg.positional[p] in cfg.options && !cfg.options[cfg.positional[p]].isContainer ==>
               Occurrences(entries, cfg.options[cfg.positional[p]].Essential()) == 0)
  {
    if cfg.positional[p] in cfg.options { NoOccurrences(entries, cfg.options[cfg.positional[p]].Essential()); }
  }

  /** What is recorded later opens nothing. */
  lemma StaysTaken(cfg: Config, entries: seq<KeyValue>, more: seq<KeyValue>, p: nat)
    requires p < |cfg.positional| && !Open(cfg, entries, p)
    ensures !Open(cfg, entries + more, p)
  {
    var d := cfg.options[cfg.positional[p]];
    var i :| 0 <= i < |entries| && entries[i].0 == d.Essential();
    assert (entries + more)[i] == entries[i];
  }

  predicate AllTaken(cfg: Config, entries: seq<KeyValue>, n: nat)
    requires n <= |cfg.positional|
  {
    forall q :: 0 <= q < n ==> !Open(cfg, entries, q)
  }

  /** The search from a cursor finds the first open option, if none before the cursor is open. */
  lemma {:induction false} SlotIsFirstOpen(cfg: Config, entries: seq<KeyValue>, cursor: nat)
    requires cursor <= |cfg.positional| && AllTaken(cfg, entries, cursor)
    ensures FirstOpen(cfg, entries, Slot(cfg, entries, cursor))
    decreases |cfg.positional| - cursor
  {
    if cursor < |cfg.positional| {
      OpenByCount(cfg, entries, cursor);
      if Slot(cfg, entries, cursor) != cursor { SlotIsFirstOpen(cfg, entries, cursor + 1); }
    }
  }

  /** The cursor has passed only options that take no more arguments. */
  lemma {:induction false} CursorPassesTaken(cfg: Config, args: seq<string>, roles: seq<Role>, i: nat)
    requires i <= |args| && i <= |roles| && forall j :: 0 <= j < i ==> SlotOk(cfg, args, roles, j)
    ensures AllTaken(cfg, Entries(cfg, args, roles, i), CursorAt(cfg, args, roles, i))
  {
    if 0 < i {
      var before, added := Entries(cfg, args, roles, i - 1), Contribution(cfg, args, roles, i - 1).entries;
      CursorPassesTaken(cfg, args, roles, i - 1);
      SlotIsFirstOpen(cfg, before, CursorAt(cfg, args, roles, i - 1));
      var slot := SlotAt(cfg, args, roles, i - 1);
      assert SlotOk(cfg, args, roles, i - 1);
      forall q | 0 <= q < CursorAt(cfg, args, roles, i) ensures !Open(cfg, before + added, q) {
        if q == slot {
          assert (before + added)[|before|] == (roles[i - 1].key, args[i - 1]);
        } else {
          StaysTaken(cfg, before, added, q);
        }
      }
    }
  }

  lemma SlotAtIsFirstOpen(cfg: Config, args: seq<string>, roles: seq<Role>, i: nat)
    requires i <= |args| && i <= |roles| && forall j :: 0 <= j < i ==> SlotOk(cfg, args, roles, j)
    ensures forall p :: FirstOpen(cfg, Entries(cfg, args, roles, i), p) <==> p == SlotAt(cfg, args, roles, i)
  {
    CursorPassesTaken(cfg, args, roles, i);
    SlotIsFirstOpen(cfg, Entries(cfg, args, roles, i), CursorAt(cfg, args, roles, i));
  }

  // ---- whole command lines --------------------------------------------------------------------

  function Shares(cfg: Config, args: seq<string>, roles: seq<Role>): (r: seq<Share>)
    requires |roles| == |args|
    ensures |r| == |args|
  {
    seq(|args|, i requires 0 <= i < |args| => Contribution(cfg, args, roles, i))
  }

  lemma {:induction false} SumOfShares(cfg: Config, args: seq<string>, roles: seq<Role>, n: nat)
    requires |roles| == |args| && n <= |args|
    ensures Sum(Shares(cfg, args, roles)[..n]) == Share(Entries(cfg, args, roles, n), Leftovers(cfg, args, roles, n))
  {
    if 0 < n {
      var shares := Shares(cfg, args, roles);
      SumOfShares(cfg, args, roles, n - 1);
      assert shares[..n][..n - 1] == shares[..n - 1] && shares[..n][n - 1] == Contribution(cfg, args, roles, n - 1);
    }
  }

  /** The argument behind a flag is its value exactly when the flag takes one. */
  lemma TakenIsNext(cfg: Config, args: seq<string>, roles: seq<Role>, sep: nat, i: nat)
    requires |roles| == |args| && i < |args| && roles[i].Flag? && EffectAt(cfg, args, i).Some?
    requires i + 1 < |args| ==> KindOk(cfg, args, roles, sep, i + 1)
    ensures TakenBy(args, roles, i) ==
            if EffectAt(cfg, args, i).value.takesNext then NextArg(args, i) else None
    ensures TakenBy(args, roles, i).Some? <==> EffectAt(cfg, args, i).value.takesNext
  {
    if EffectAt(cfg, args, i).value.takesNext { TakenArgumentExists(cfg, args, i); }
  }

  lemma ArgumentIsRead(cfg: Config, args: seq<string>, roles: seq<Role>, sep: nat, i: nat)
    requires |roles| == |args| && i < |args| && sep <= |args|
    requires forall j :: 0 <= j < |args| ==> RoleOk(cfg, args, roles, sep, j)
    ensures ReadsArgument(cfg, args, roles, Shares(cfg, args, roles), sep, i)
  {
    var shares, entries := Shares(cfg, args, roles), Entries(cfg, args, roles, i);
    assert RoleOk(cfg, args, roles, sep, i);
    SumOfShares(cfg, args, roles, i);
    match roles[i]
    case Flag =>
      if i + 1 < |args| { assert RoleOk(cfg, args, roles, sep, i + 1); }
      TakenIsNext(cfg, args, roles, sep, i);
      FlagReadsIff(cfg, args[i], cfg.tokenise(args[i]).value, NextArg(args, i), TakenBy(args, roles, i), shares[i]);
    case Positional(key) =>
      forall j | 0 <= j < i ensures SlotOk(cfg, args, roles, j) { assert RoleOk(cfg, args, roles, sep, j); }
      SlotAtIsFirstOpen(cfg, args, roles, i);
      assert FirstOpen(cfg, entries, SlotAt(cfg, args, roles, i));
    case Leftover =>
      forall j | 0 <= j < i ensures SlotOk(cfg, args, roles, j) { assert RoleOk(cfg, args, roles, sep, j); }
      SlotAtIsFirstOpen(cfg, args, roles, i);
    case _ =>
  }

  /** An accounting of the whole command line is a reading of it. */
  lemma AccountingIsReading(cfg: Config, args: seq<string>, roles: seq<Role>, sep: nat)
    requires |roles| == |args| && sep <= |args| && RolesOk(cfg, args, roles, sep, |args|)
    ensures Reads(cfg, args, roles, Shares(cfg, args, roles), sep)
  {
    RolesOkMeans(cfg, args, roles, sep, |args|);
    forall i | 0 <= i < |args| ensures ReadsArgument(cfg, args, roles, Shares(cfg, args, roles), sep, i) {
      ArgumentIsRead(cfg, args, roles, sep, i);
    }
  }

  lemma ReadFlag(cfg: Config, args: seq<string>, roles: seq<Role>, shares: seq<Share>, sep: nat, i: nat)
    requires |roles| == |args| == |shares| && i < |args| && ReadsArgument(cfg, args, roles, shares, sep, i)
    requires roles[i].Flag?
    ensures EffectAt(cfg, args, i) ==
            Some(Effect(shares[i].entries, shares[i].left, TakenBy(args, roles, i).Some?))
  {
    FlagReadsIff(cfg, args[i], cfg.tokenise(args[i]).value, NextArg(args, i), TakenBy(args, roles, i), shares[i]);
  }

  lemma ReadShares(cfg: Config, args: seq<string>, roles: seq<Role>, shares: seq<Share>, sep: nat)
    requires Reads(cfg, args, roles, shares, sep)
    ensures shares == Shares(cfg, args, roles)
  {
    forall i | 0 <= i < |args| ensures shares[i] == Contribution(cfg, args, roles, i) {
      assert ReadsArgument(cfg, args, roles, shares, sep, i);
      if roles[i].Flag? { ReadFlag(cfg, args, roles, shares, sep, i); }
    }
  }

  lemma ReadKind(cfg: Config, args: seq<string>, roles: seq<Role>, shares: seq<Share>, sep: nat, i: nat)
    requires Reads(cfg, args, roles, shares, sep) && i < |args|
    ensures KindOk(cfg, args, roles, sep, i)
  {
    assert ReadsArgument(cfg, args, roles, shares, sep, i);
    if roles[i].Flag? { ReadFlag(cfg, args, roles, shares, sep, i); }
    if 0 < i {
      assert ReadsArgument(cfg, args, roles, shares, sep, i - 1);
      if roles[i - 1].Flag? { ReadFlag(cfg, args, roles, shares, sep, i - 1); }
    }
  }

  lemma {:induction false} ReadSlots(cfg: Config, args: seq<string>, roles: seq<Role>, shares: seq<Share>, sep: nat, n: nat)
    requires Reads(cfg, args, roles, shares, sep) && n <= |args|
    ensures forall i :: 0 <= i < n ==> SlotOk(cfg, args, roles, i)
  {
    if 0 < n {
      ReadSlots(cfg, args, roles, shares, sep, n - 1);
      ReadShares(cfg, args, roles, shares, sep);
      SumOfShares(cfg, args, roles, n - 1);
      SlotAtIsFirstOpen(cfg, args, roles, n - 1);
      assert ReadsArgument(cfg, args, roles, shares, sep, n - 1);
    }
  }

  /** And a reading is an accounting: nothing else is possible. */
  lemma ReadingIsAccounting(cfg: Config, args: seq<string>, roles: seq<Role>, shares: seq<Share>, sep: nat)
    requires Reads(cfg, args, roles, shares, sep)
    ensures RolesOk(cfg, args, roles, sep, |args|) && shares == Shares(cfg, args, roles)
  {
    ReadShares(cfg, args, roles, shares, sep);
    ReadSlots(cfg, args, roles, shares, sep, |args|);
    forall i | 0 <= i < |args| ensures RoleOk(cfg, args, roles, sep, i) { ReadKind(cfg, args, roles, shares, sep, i); }
    RolesOkMeans(cfg, args, roles, sep, |args|);
  }

  lemma {:induction false} OccurrencesIsSize(entries: seq<KeyValue>, name: string)
    ensures Occurrences(entries, name) == |Places(entries, name)|
  {
    if entries != [] {
      var n := |entries| - 1;
      var init := entries[..n];
      OccurrencesIsSize(init, name);
      assert Places(entries, name) == Places(init, name) + if entries[n].0 == name then {n} else {};
    }
  }

  lemma DefaultsOkIff(cfg: Config, given: seq<KeyValue>)
    ensures DefaultsOk(cfg, given) <==> forall n <- cfg.options :: AcceptableDefault(cfg, given, n)
  {
    forall n <- cfg.options
      ensures Due(cfg, given, n) <==> cfg.options[n].hasDefault && Places(given, cfg.options[n].Essential()) == {}
    {
      OccurrencesIsSize(given, cfg.options[n].Essential());
    }
  }

  lemma ParsesIsSensible(cfg: Config, args: seq<string>, roles: seq<Role>, sep: nat)
    requires Parses(cfg, args, roles, sep)
    ensures Sensible(cfg, args, roles, Shares(cfg, args, roles), sep)
  {
    AccountingIsReading(cfg, args, roles, sep);
    SumOfShares(cfg, args, roles, sep);
    SumOfShares(cfg, args, roles, |args|);
    assert Shares(cfg, args, roles)[..|args|] == Shares(cfg, args, roles);
    DefaultsOkIff(cfg, Entries(cfg, args, roles, sep));
  }

  lemma SensibleIsParses(cfg: Config, args: seq<string>, roles: seq<Role>, shares: seq<Share>, sep: nat)
    requires Sensible(cfg, args, roles, shares, sep)
    ensures Parses(cfg, args, roles, sep) && shares == Shares(cfg, args, roles)
  {
    ReadingIsAccounting(cfg, args, roles, shares, sep);
    SumOfShares(cfg, args, roles, sep);
    SumOfShares(cfg, args, roles, |args|);
    assert shares[..|args|] == shares;
    DefaultsOkIff(cfg, Entries(cfg, args, roles, sep));
  }

  lemma NothingSensible(cfg: Config, args: seq<string>)
    requires Unparsable(cfg, args)
    ensures forall roles, shares, sep: nat :: !Sensible(cfg, args, roles, shares, sep)
  {
    forall roles, shares, sep: nat ensures !Sensible(cfg, args, roles, shares, sep) {
      if Sensible(cfg, args, roles, shares, sep) {
        SensibleIsParses(cfg, args, roles, shares, sep);
        assert false;
      }
    }
  }

  lemma ReportedDefaults(cfg: Config, args: seq<string>, roles: seq<Role>, sep: nat, given: seq<KeyValue>,
                         defaults: seq<KeyValue>)
    requires |roles| == |args| && sep <= |args| && given == Entries(cfg, args, roles, sep)
    requires DefaultsListed(cfg, given, defaults)
    ensures ListsDefaults(cfg, Sum(Shares(cfg, args, roles)[..sep]).entries, defaults)
  {
    SumOfShares(cfg, args, roles, sep);
    forall n <- cfg.options
      ensures Occurrences(defaults, cfg.options[n].Essential()) == |Places(defaults, cfg.options[n].Essential())|
      ensures Due(cfg, given, n) <==> cfg.options[n].hasDefault && Places(given, cfg.options[n].Essential()) == {}
    {
      OccurrencesIsSize(defaults, cfg.options[n].Essential());
      OccurrencesIsSize(given, cfg.options[n].Essential());
    }
  }

  /** A command line has at most one reading, sensible or not. */
  lemma ReadingIsUnique(cfg: Config, args: seq<string>, a: seq<Role>, sharesA: seq<Share>, sepA: nat,
                        b: seq<Role>, sharesB: seq<Share>, sepB: nat)
    requires Reads(cfg, args, a, sharesA, sepA) && Reads(cfg, args, b, sharesB, sepB)
    ensures a == b && sharesA == sharesB && sepA == sepB
  {
    ReadingIsAccounting(cfg, args, a, sharesA, sepA);
    ReadingIsAccounting(cfg, args, b, sharesB, sepB);
    RolesAreDetermined(cfg, args, a, sepA, b, sepB, |args|);
    assert a[..|args|] == a && b[..|args|] == b;
    SameSeparator(cfg, args, a, sepA, b, sepB);
  }

  // ---- which error is thrown ------------------------------------------------------------------

  /** A flag that takes nothing means the same at the end of the command line. */
  lemma {:induction false} GroupWithoutNext(cfg: Config, s: string, i: nat, next: Option<string>)
    requires i <= |s| && GroupEffect(cfg, s, i, next).Some? && !GroupEffect(cfg, s, i, next).value.takesNext
    ensures GroupEffect(cfg, s, i, None) == GroupEffect(cfg, s, i, next)
    decreases |s| - i
  {
    if i < |s| && (if [s[i]] in cfg.options then i + 1 < |s| && cfg.options[[s[i]]].hasImplicit else cfg.allowUnrecognised) {
      GroupWithoutNext(cfg, s, i + 1, next);
    }
  }

  lemma EffectWithoutNext(cfg: Config, args: seq<string>, n: nat, i: nat)
    requires i < n <= |args|
    requires i == n - 1 && EffectAt(cfg, args, i).Some? ==> !EffectAt(cfg, args, i).value.takesNext
    requires i == n - 1 ==> EffectAt(cfg, args, i).Some?
    ensures EffectAt(cfg, args[..n], i) == EffectAt(cfg, args, i)
  {
    if i == n - 1 {
      var desc := cfg.tokenise(args[i]).value;
      if desc.grouping { GroupWithoutNext(cfg, desc.name, 0, NextArg(args, i)); }
    }
  }

  lemma PrefixEffect(cfg: Config, args: seq<string>, roles: seq<Role>, sep: nat, n: nat, k: nat)
    requires k < n == |roles| <= |args| && RolesOk(cfg, args, roles, sep, n) && Closed(cfg, args, roles)
    requires roles[k].Flag?
    ensures EffectAt(cfg, args[..n], k) == EffectAt(cfg, args, k)
  {
    RolesOkMeans(cfg, args, roles, sep, n);
    assert RoleOk(cfg, args, roles, sep, k);
    EffectWithoutNext(cfg, args, n, k);
  }

  lemma PrefixContribution(cfg: Config, args: seq<string>, roles: seq<Role>, sep: nat, n: nat, k: nat, front: seq<string>)
    requires k < n == |roles| <= |args| && RolesOk(cfg, args, roles, sep, n) && Closed(cfg, args, roles)
    requires front == args[..n]
    ensures Contribution(cfg, front, roles, k) == Contribution(cfg, args, roles, k)
    ensures TakesNext(cfg, front, roles, k) == TakesNext(cfg, args, roles, k)
  {
    if roles[k].Flag? { PrefixEffect(cfg, args, roles, sep, n, k); }
  }

  /** The first `n` arguments, accounted for, add the same on their own. */
  lemma {:induction false} PrefixContributes(cfg: Config, args: seq<string>, roles: seq<Role>, sep: nat, n: nat, k: nat,
                                             front: seq<string>)
    requires k <= n == |roles| <= |args| && RolesOk(cfg, args, roles, sep, n) && Closed(cfg, args, roles)
    requires front == args[..n]
    ensures Entries(cfg, front, roles, k) == Entries(cfg, args, roles, k)
    ensures CursorAt(cfg, front, roles, k) == CursorAt(cfg, args, roles, k)
  {
    if 0 < k {
      PrefixContribution(cfg, args, roles, sep, n, k - 1, front);
      PrefixContributes(cfg, args, roles, sep, n, k - 1, front);
    }
  }

  lemma PrefixRole(cfg: Config, args: seq<string>, roles: seq<Role>, sep: nat, n: nat, i: nat, front: seq<string>)
    requires i < n == |roles| <= |args| && RolesOk(cfg, args, roles, sep, n) && Closed(cfg, args, roles)
    requires front == args[..n]
    ensures RoleOk(cfg, front, roles, if sep < n then sep else n, i)
  {
    RolesOkMeans(cfg, args, roles, sep, n);
    assert RoleOk(cfg, args, roles, sep, i);
    assert SlotOk(cfg, front, roles, i) by { PrefixContributes(cfg, args, roles, sep, n, i, front); }
    assert KindOk(cfg, front, roles, if sep < n then sep else n, i) by {
      if 0 < i { PrefixContribution(cfg, args, roles, sep, n, i - 1, front); }
      if roles[i].Flag? { PrefixEffect(cfg, args, roles, sep, n, i); }
    }
  }

  lemma PrefixIsRead(cfg: Config, args: seq<string>, roles: seq<Role>, sep: nat, n: nat, entries: seq<KeyValue>)
    requires n == |roles| <= |args| && RolesOk(cfg, args, roles, sep, n) && Closed(cfg, args, roles)
    requires entries == Entries(cfg, args, roles, n) && AllAccepted(cfg, entries)
    ensures ReadsFirst(cfg, args, n, roles, Shares(cfg, args[..n], roles), if sep < n then sep else n)
    ensures Sum(Shares(cfg, args[..n], roles)).entries == entries
  {
    var sep' := if sep < n then sep else n;
    forall i | 0 <= i < n ensures RoleOk(cfg, args[..n], roles, sep', i) {
      PrefixRole(cfg, args, roles, sep, n, i, args[..n]);
    }
    RolesOkMeans(cfg, args[..n], roles, sep', n);
    AccountingIsReading(cfg, args[..n], roles, sep');
    PrefixContributes(cfg, args, roles, sep, n, n, args[..n]);
    SumOfShares(cfg, args[..n], roles, n);
    assert Shares(cfg, args[..n], roles)[..n] == Shares(cfg, args[..n], roles);
  }

  lemma BlameAt(cfg: Config, args: seq<string>, roles: seq<Role>, sep: nat, n: nat, entries: seq<KeyValue>,
                cursor: nat, error: Error)
    requires n == |roles| < |args| && RolesOk(cfg, args, roles, sep, n) && Closed(cfg, args, roles)
    requires entries == Entries(cfg, args, roles, n) && cursor == CursorAt(cfg, args, roles, n)
    requires AllAccepted(cfg, entries) && (sep < n || args[n] != "--")
    requires FailsAt(cfg, args, n, entries, cursor, sep < n, error)
    ensures Blames(cfg, args, error)
  {
    var sep', shares := if sep < n then sep else n, Shares(cfg, args[..n], roles);
    PrefixIsRead(cfg, args, roles, sep, n, entries);
    RolesOkMeans(cfg, args, roles, sep, n);
    forall j | 0 <= j < n ensures SlotOk(cfg, args, roles, j) { assert RoleOk(cfg, args, roles, sep, j); }
    SlotAtIsFirstOpen(cfg, args, roles, n);
    assert FirstOpen(cfg, entries, Slot(cfg, entries, cursor));
    assert ArgumentFails(cfg, args, n, entries, sep < n, error);
    assert BlamesArgument(cfg, args, n, roles, shares, sep', error);
  }

  lemma BlameInLoop(cfg: Config, args: seq<string>, roles: seq<Role>, current: nat, cursor: nat,
                    entries: seq<KeyValue>, unmatched: seq<string>, error: Error)
    requires current < |args| && cursor <= |cfg.positional|
    requires InLoop(cfg, args, roles, current, cursor, entries, unmatched) && AllAccepted(cfg, entries)
    requires args[current] != "--" && FailsAt(cfg, args, current, entries, cursor, false, error)
    ensures Blames(cfg, args, error)
  {
    BlameAt(cfg, args, roles, |args|, current, entries, cursor, error);
  }

  lemma BlameBehind(cfg: Config, args: seq<string>, roles: seq<Role>, current: nat, cursor: nat, sep: nat,
                    entries: seq<KeyValue>, unmatched: seq<string>, error: Error)
    requires current < |args| && cursor <= |cfg.positional|
    requires AfterLoop(cfg, args, roles, current, cursor, sep, entries, unmatched) && AllAccepted(cfg, entries)
    requires SlotFails(cfg, Slot(cfg, entries, cursor), args[current], error)
    ensures Blames(cfg, args, error)
  {
    NotWaiting(cfg, args, roles, sep);
    BlameAt(cfg, args, roles, sep, current, entries, cursor, error);
  }

  lemma BlameDefault(cfg: Config, args: seq<string>, roles: seq<Role>, sep: nat, entries: seq<KeyValue>)
    requires sep <= |args| && |roles| == (if sep < |args| then sep + 1 else |args|)
    requires RolesOk(cfg, args, roles, sep, |roles|) && Closed(cfg, args, roles)
    requires entries == Entries(cfg, args, roles, |roles|) && AllAccepted(cfg, entries) && !DefaultsOk(cfg, entries)
    ensures Blames(cfg, args, IncorrectType)
  {
    var n := |roles|;
    var sep', shares := if sep < n then sep else n, Shares(cfg, args[..n], roles);
    PrefixIsRead(cfg, args, roles, sep, n, entries);
    DefaultsOkIff(cfg, entries);
    assert BlamesDefault(cfg, args, n, roles, shares, sep', IncorrectType);
  }
}
