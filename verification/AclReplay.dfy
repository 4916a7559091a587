/**
 The retained rules of a selector replay to its permissions.

 Replaying is compared on `Access`: the bitmap, and per command the set of allowed first arguments up to case.
 A command rule overwrites a region of it with a value that does not depend on what was there. So dropping a
 rule whose region lies inside that of the rule being appended leaves the outcome unchanged, whatever the
 rules between the two do.
 */
module AclReplay {
  import opened AclText
  import opened AclCommands
  import opened AclSelector

  datatype Access = Access(bits: set<nat>, args: set<(nat, string)>)

  function ArgsOf(firstArgs: map<nat, seq<string>>): set<(nat, string)> {
    set id, i | id in firstArgs && 0 <= i < |firstArgs[id]| :: (id, Lower(firstArgs[id][i]))
  }

  function AccessOf(p: CommandPerms): Access {
    Access(p.bits, ArgsOf(p.firstArgs))
  }

  function AddedBy(e: Effect): set<(nat, string)> {
    if e.add.Some? then {(e.add.value.0, Lower(e.add.value.1))} else {}
  }

  function Overwrite(e: Effect, a: Access): Access {
    Access(if e.allow then a.bits + e.bits else a.bits - e.bits,
           (set x | x in a.args && x.0 !in e.resets) + AddedBy(e))
  }

  predicate Lists(firstArgs: map<nat, seq<string>>, x: (nat, string)) {
    x.0 in firstArgs && exists i :: 0 <= i < |firstArgs[x.0]| && Lower(firstArgs[x.0][i]) == x.1
  }

  lemma ArgsOfLists(firstArgs: map<nat, seq<string>>, x: (nat, string))
    ensures x in ArgsOf(firstArgs) <==> Lists(firstArgs, x)
  {
    if Lists(firstArgs, x) {
      var i :| 0 <= i < |firstArgs[x.0]| && Lower(firstArgs[x.0][i]) == x.1;
      assert (x.0, Lower(firstArgs[x.0][i])) in ArgsOf(firstArgs);
      assert x == (x.0, x.1);
    }
  }

  lemma OverwriteIsApply(p: CommandPerms, e: Effect)
    ensures AccessOf(ApplyEffect(p, e)) == Overwrite(e, AccessOf(p))
  {
    var kept := map id | id in p.firstArgs && id !in e.resets :: p.firstArgs[id];
    forall x ensures x in ArgsOf(kept) <==> x in ArgsOf(p.firstArgs) && x.0 !in e.resets {
      ArgsOfLists(kept, x);
      ArgsOfLists(p.firstArgs, x);
    }
    assert ArgsOf(kept) == set x | x in ArgsOf(p.firstArgs) && x.0 !in e.resets;
    if e.add.Some? {
      ArgsOfAdd(kept, e.add.value.0, e.add.value.1);
    }
  }

  lemma ArgsOfAdd(args: map<nat, seq<string>>, id: nat, sub: string)
    ensures ArgsOf(AddFirstArg(args, id, sub)) == ArgsOf(args) + {(id, Lower(sub))}
  {
    hide ArgsOf, Lists, Lower;
    var have := ArgsFor(args, id);
    var after := AddFirstArg(args, id, sub);
    var x := (id, Lower(sub));
    if HasArg(have, sub) {
      ArgsOfLists(args, x);
      HasIsListed(args, id, sub);
      assert ArgsOf(args) == ArgsOf(args) + {x};
    } else {
      forall y ensures y in ArgsOf(after) <==> y in ArgsOf(args) || y == x {
        ArgsOfLists(args, y);
        ArgsOfLists(after, y);
        assert y == (y.0, y.1);
        if y.0 == id { ListsAppend(args, after, id, sub, y); } else { ListsOther(args, after, id, sub, y); }
      }
      assert ArgsOf(after) == ArgsOf(args) + {x};
    }
  }

  lemma HasIsListed(args: map<nat, seq<string>>, id: nat, sub: string)
    requires HasArg(ArgsFor(args, id), sub)
    ensures Lists(args, (id, Lower(sub)))
  {}

  lemma ListsOther(args: map<nat, seq<string>>, after: map<nat, seq<string>>, id: nat, sub: string, y: (nat, string))
    requires after == args[id := ArgsFor(args, id) + [sub]] && y.0 != id
    ensures Lists(after, y) <==> Lists(args, y)
  {}

  lemma ListsAppend(args: map<nat, seq<string>>, after: map<nat, seq<string>>, id: nat, sub: string, y: (nat, string))
    requires after == args[id := ArgsFor(args, id) + [sub]] && y.0 == id
    ensures Lists(after, y) <==> Lists(args, y) || y.1 == Lower(sub)
  {
    var have := ArgsFor(args, id);
    assert after[id][|have|] == sub;
    if Lists(args, y) {
      var i :| 0 <= i < |have| && Lower(have[i]) == y.1;
      assert after[id][i] == have[i];
    }
  }

  // ---- overwritten regions ----

  predicate InRegion(e: Effect, x: (nat, string)) {
    x.0 in e.resets || x in AddedBy(e)
  }

  /** The two outcomes differ at most where `e` will overwrite them. */
  ghost predicate AgreeOutside(e: Effect, a: Access, b: Access) {
    && (forall i :: i !in e.bits ==> (i in a.bits <==> i in b.bits))
    && (forall x :: !InRegion(e, x) ==> (x in a.args <==> x in b.args))
  }

  lemma OverwriteHidesRegion(e: Effect, a: Access, b: Access)
    requires AgreeOutside(e, a, b)
    ensures Overwrite(e, a) == Overwrite(e, b)
  {
    var p, q := Overwrite(e, a), Overwrite(e, b);
    assert p.bits == q.bits;
    assert forall x :: x in p.args <==> x in q.args;
  }

  lemma AgreementIsKept(e: Effect, r: Effect, a: Access, b: Access)
    requires AgreeOutside(e, a, b)
    ensures AgreeOutside(e, Overwrite(r, a), Overwrite(r, b))
  {}

  function SubcommandIds(t: Table): set<nat> {
    set n, m | n in t.commands && m in t.commands[n].subs :: t.commands[n].subs[m].id
  }

  /** First arguments are only ever kept for commands that are not subcommands. */
  predicate NoArgsFor(subs: set<nat>, a: Access) {
    forall x :: x in a.args ==> x.0 !in subs
  }

  predicate AddsNoArgFor(subs: set<nat>, e: Effect) {
    e.add.Some? ==> e.add.value.0 !in subs
  }

  ghost predicate CoveredBy(subs: set<nat>, r: Effect, e: Effect) {
    && r.bits <= e.bits
    && r.resets <= e.resets + subs
    && (forall x :: x in AddedBy(r) ==> InRegion(e, x))
  }

  lemma CoveredRuleIsHidden(subs: set<nat>, e: Effect, r: Effect, a: Access, b: Access)
    requires AgreeOutside(e, a, b) && CoveredBy(subs, r, e) && NoArgsFor(subs, a)
    ensures AgreeOutside(e, Overwrite(r, a), b)
  {
    var c := Overwrite(r, a);
    forall x | !InRegion(e, x) ensures x in c.args <==> x in b.args {
      assert x !in AddedBy(r);
      if x in a.args { assert x.0 !in r.resets; }
    }
  }

  function Run(es: seq<Effect>, a: Access): Access {
    if es == [] then a else Run(es[1..], Overwrite(es[0], a))
  }

  lemma {:induction false} RunAppend(es: seq<Effect>, last: Effect, a: Access)
    ensures Run(es + [last], a) == Overwrite(last, Run(es, a))
  {
    if es == [] {
      assert (es + [last])[1..] == [];
    } else {
      RunAppend(es[1..], last, Overwrite(es[0], a));
      assert (es + [last])[1..] == es[1..] + [last];
    }
  }

  /** The effects of the rules that DropSuperseded keeps. */
  function KeptEffects(es: seq<Effect>, rules: seq<Rule>, added: string): seq<Effect>
    requires |es| == |rules|
  {
    if rules == [] then []
    else (if Supersedes(added, rules[0].name) then [] else [es[0]]) + KeptEffects(es[1..], rules[1..], added)
  }

  /** Dropping rules that `e` covers changes the outcome only where `e` is about to overwrite it. */
  lemma {:induction false} DroppingIsHidden(
    subs: set<nat>, e: Effect, es: seq<Effect>, rules: seq<Rule>, added: string, a: Access, b: Access)
    requires |es| == |rules| && NoArgsFor(subs, a) && AgreeOutside(e, a, b)
    requires forall i :: 0 <= i < |es| ==> AddsNoArgFor(subs, es[i])
    requires forall i :: 0 <= i < |es| && Supersedes(added, rules[i].name) ==> CoveredBy(subs, es[i], e)
    ensures AgreeOutside(e, Run(es, a), Run(KeptEffects(es, rules, added), b))
  {
    if rules != [] {
      var a', kept := Overwrite(es[0], a), KeptEffects(es[1..], rules[1..], added);
      assert AddsNoArgFor(subs, es[0]);
      if Supersedes(added, rules[0].name) {
        CoveredRuleIsHidden(subs, e, es[0], a, b);
        DroppingIsHidden(subs, e, es[1..], rules[1..], added, a', b);
        assert KeptEffects(es, rules, added) == kept;
      } else {
        AgreementIsKept(e, es[0], a, b);
        DroppingIsHidden(subs, e, es[1..], rules[1..], added, a', Overwrite(es[0], b));
        assert KeptEffects(es, rules, added) == [es[0]] + kept;
      }
    }
  }

  // ---- rules read back from their text ----

  predicate IsAlias(op: string) {
    EqNoCase(op, "allcommands") || EqNoCase(op, "+@all") || EqNoCase(op, "nocommands") || EqNoCase(op, "-@all")
  }

  /** `r` is a C string that, written out and read again, is itself. */
  predicate Canonical(t: Table, r: Rule) {
    && '\0' !in r.name
    && !IsAlias(r.Text())
    && ParseRule(t, r.Text()).Ok?
    && ParseRule(t, r.Text()).value.rule == r
  }

  function EffectOf(t: Table, r: Rule): Effect
    requires Canonical(t, r)
  {
    ParseRule(t, r.Text()).value.effect
  }

  lemma RuleNameIsLower(t: Table, op: string, c: RuleChange)
    requires ValidTable(t) && |op| > 0 && ParseRule(t, op) == Ok(c)
    ensures c.rule == Rule(op[0] == '+', Lower(op[1..]))
  {
    var body := op[1..];
    if !(|body| > 0 && body[0] == '@') && !(op[0] == '+' && '|' in body) {
      LookupName(t, body, LookupCommand(t, body).value);
      LowerIdempotent(body);
    }
  }

  lemma SignAndName(op: string)
    requires |op| > 0 && (op[0] == '+' || op[0] == '-')
    ensures Rule(op[0] == '+', Lower(op[1..])).Text() == Lower(op)
  {}

  predicate SameUpToCase(c: RuleChange, d: RuleChange) {
    && c.rule == d.rule
    && c.effect.(add := None) == d.effect.(add := None)
    && AddedBy(c.effect) == AddedBy(d.effect)
  }

  lemma CategoryRuleIgnoresCase(t: Table, allow: bool, body: string)
    requires |body| > 0
    ensures ParseCategoryRule(t, allow, Lower(body)) == ParseCategoryRule(t, allow, body)
  {
    LowerIdempotent(body);
    LowerAt(body, 1);
    LowerIdempotent(body[1..]);
  }

  lemma BarRuleLower(body: string, base: Option<Command>, whole: Option<Command>, sub: string, c: RuleChange)
    requires BarRule(body, base, whole, sub) == Ok(c)
    ensures BarRule(Lower(body), base, whole, Lower(sub)).Ok?
    ensures SameUpToCase(c, BarRule(Lower(body), base, whole, Lower(sub)).value)
  {
    LowerIdempotent(body);
    LowerIdempotent(sub);
  }

  lemma BarRuleIgnoresCase(t: Table, body: string, c: RuleChange)
    requires '|' in body && ParseBarRule(t, body) == Ok(c)
    ensures '|' in Lower(body) && ParseBarRule(t, Lower(body)).Ok? && SameUpToCase(c, ParseBarRule(t, Lower(body)).value)
  {
    var k, base, whole := LastIndexOf(body, '|'), LookupCommand(t, body[..LastIndexOf(body, '|')]), LookupCommand(t, body);
    BarRuleParts(t, body, k);
    BarRuleLower(body, base, whole, body[k + 1..], c);
    BarPartsLower(t, body, k);
    BarRuleParts(t, Lower(body), k);
  }

  lemma {:induction false} BarPartsLower(t: Table, body: string, k: nat)
    requires '|' in body && LastIndexOf(body, '|') == k
    ensures '|' in Lower(body) && LastIndexOf(Lower(body), '|') == k < |body|
    ensures LookupCommand(t, Lower(body)) == LookupCommand(t, body)
    ensures LookupCommand(t, Lower(body)[..k]) == LookupCommand(t, body[..k])
    ensures Lower(body)[k + 1..] == Lower(body[k + 1..])
  {
    LowerKeepsBars(body);
    LastIndexOfLower(body);
    LookupIgnoresCase(t, body);
    LookupIgnoresCase(t, body[..k]);
    LowerAt(body, k);
    LowerAt(body, k + 1);
  }

  lemma BarRuleParts(t: Table, body: string, k: nat)
    requires '|' in body && LastIndexOf(body, '|') == k
    ensures k < |body|
    ensures ParseBarRule(t, body) == BarRule(body, LookupCommand(t, body[..k]), LookupCommand(t, body), body[k + 1..])
  {}

  lemma RuleIgnoresCase(t: Table, op: string, c: RuleChange)
    requires |op| > 0 && (op[0] == '+' || op[0] == '-') && ParseRule(t, op) == Ok(c)
    ensures ParseRule(t, Lower(op)).Ok? && SameUpToCase(c, ParseRule(t, Lower(op)).value)
  {
    var body := op[1..];
    LowerAt(op, 1);
    LowerKeepsBars(body);
    if |body| > 0 && body[0] == '@' {
      CategoryRuleIgnoresCase(t, op[0] == '+', body);
    } else {
      assert |body| > 0 ==> Lower(body)[0] != '@';
      LookupIgnoresCase(t, body);
      if op[0] == '+' && '|' in body {
        BarRuleIgnoresCase(t, body, c);
      }
    }
  }

  /** A rule that was accepted reads back as itself, with the same effect up to the case of its first-arg. */
  lemma AcceptedRuleIsCanonical(t: Table, op: string, c: RuleChange)
    requires ValidTable(t) && |op| > 0 && (op[0] == '+' || op[0] == '-') && !IsAlias(op) && ParseRule(t, op) == Ok(c)
    requires '\0' !in op
    ensures Canonical(t, c.rule)
    ensures forall a :: Overwrite(EffectOf(t, c.rule), a) == Overwrite(c.effect, a)
  {
    RuleNameIsLower(t, op, c);
    SignAndName(op);
    RuleIgnoresCase(t, op, c);
    LowerIdempotent(op);
    LowerKeeps(op[1..], '\0');
  }

  // ---- a superseded rule lies within what supersedes it ----

  /** A canonical rule over a name with '|' is one first-arg, or one subcommand, of the command before the '|'. */
  ghost predicate BarShape(t: Table, r: Rule, k: nat, top: Top)
    requires Canonical(t, r)
  {
    && k < |r.name| && r.name[k] == '|' && '|' !in r.name[..k] && '|' !in r.name[k + 1..]
    && LookupCommand(t, r.name[..k]) == Some(TopCommand(top))
    && if top.subs == map[]
       then EffectOf(t, r) == Effect(true, {}, {}, Some((top.id, r.name[k + 1..])))
       else LookupCommand(t, r.name).Some? && LookupCommand(t, r.name).value.SubCommand?
            && LookupCommand(t, r.name).value.parent == top
            && LookupCommand(t, r.name).value.sub in top.subs.Values
            && EffectOf(t, r) == CommandEffect(LookupCommand(t, r.name).value, r.allow)
  }

  lemma LookupWithBar(t: Table, name: string, k: nat, c: Command)
    requires ValidTable(t) && k < |name| && name[k] == '|' && '|' !in name[..k]
    requires LookupCommand(t, name) == Some(c)
    ensures c.SubCommand? && c.sub in c.parent.subs.Values && c.parent.subs != map[] && '|' !in name[k + 1..]
    ensures LookupCommand(t, name[..k]) == Some(TopCommand(c.parent))
  {
    assert forall j :: 0 <= j < k ==> name[j] == name[..k][j];
    IndexOfUnique(name, '|', k);
    IndexOfUnique(name[..k], '|', k);
    assert name[..k][..k] == name[..k];
    LowerKeepsBars(name[k + 1..]);
  }

  lemma LookupTop(t: Table, name: string, c: Command)
    requires LookupCommand(t, name) == Some(c)
    ensures c.TopCommand? <==> '|' !in name
  {
    var i := IndexOf(name, '|');
    assert i < |name| <==> '|' in name;
  }

  lemma CanonicalText(t: Table, r: Rule)
    requires ValidTable(t) && Canonical(t, r)
    ensures r.Text()[1..] == r.name && Lower(r.name) == r.name && r.name != ""
    ensures r.name[0] != '@' ==>
              if r.allow && '|' in r.name then ParseBarRule(t, r.name) == Ok(RuleChange(EffectOf(t, r), r))
              else LookupCommand(t, r.name).Some? && EffectOf(t, r) == CommandEffect(LookupCommand(t, r.name).value, r.allow)
  {
    assert r.Text()[1..] == r.name;
    RuleNameIsLower(t, r.Text(), RuleChange(EffectOf(t, r), r));
    if r.name == "" { LookupNeedsName(t, "", LookupCommand(t, "").value); }
  }

  lemma CanonicalBar(t: Table, r: Rule) returns (k: nat, top: Top)
    requires ValidTable(t) && Canonical(t, r) && '|' in r.name && r.name[0] != '@'
    ensures BarShape(t, r, k, top)
  {
    hide Canonical, LookupCommand, ParseRule, EffectOf, ValidTable;
    CanonicalText(t, r);
    var name := r.name;
    if r.allow {
      k := LastIndexOf(name, '|');
      BarRuleParts(t, name, k);
      LookupTop(t, name[..k], LookupCommand(t, name[..k]).value);
      top := LookupCommand(t, name[..k]).value.top;
      if top.subs != map[] {
        LookupWithBar(t, name, k, LookupCommand(t, name).value);
      }
    } else {
      k := IndexOf(name, '|');
      LookupWithBar(t, name, k, LookupCommand(t, name).value);
      top := LookupCommand(t, name).value.parent;
    }
  }

  lemma LongerNameHasBar(name: string, longer: string)
    requires Supersedes(name, longer) && name != longer && name != ""
    ensures '|' in longer[1..]
  {
    assert longer[1..][|name| - 1] == '|';
  }

  lemma CategoryIsCovered(t: Table, n: Rule, r: Rule)
    requires ValidTable(t) && Canonical(t, n) && Canonical(t, r) && Supersedes(n.name, r.name)
    requires r.name != "" && r.name[0] == '@'
    ensures CoveredBy(SubcommandIds(t), EffectOf(t, r), EffectOf(t, n))
  {
    CanonicalText(t, r);
    CanonicalText(t, n);
    assert n.name[0] == '@';
    LowerAt(r.name, 1);
    assert ValidName(r.name[1..]);
    if r.name != n.name {
      LongerNameHasBar(n.name, r.name);
      assert false;
    }
  }

  lemma BarIsUnique(name: string, k: nat, m: nat)
    requires k < |name| && m < |name| && name[m] == '|' && '|' !in name[..k] && '|' !in name[k + 1..]
    ensures k == m
  {
    assert forall i :: 0 <= i < k ==> name[..k][i] == name[i];
    assert forall i :: k < i < |name| ==> name[k + 1..][i - k - 1] == name[i];
  }

  lemma SameBarRuleIsCovered(t: Table, n: Rule, r: Rule)
    requires ValidTable(t) && Canonical(t, n) && Canonical(t, r) && n.name == r.name
    requires '|' in r.name && r.name[0] != '@'
    ensures CoveredBy(SubcommandIds(t), EffectOf(t, r), EffectOf(t, n))
  {
    hide Canonical, EffectOf, LookupCommand, ValidTable, SubcommandIds, CommandBits;
    var k, top := CanonicalBar(t, r);
    var m, other := CanonicalBar(t, n);
    BarIsUnique(r.name, k, m);
  }

  lemma SubcommandOf(t: Table, name: string, top: Top, sub: Sub)
    requires LookupCommand(t, name) == Some(TopCommand(top)) && sub in top.subs.Values
    ensures sub.id in SubIds(top) && sub.id in SubcommandIds(t)
  {
    var m :| m in top.subs && top.subs[m] == sub;
    var n := Lower(name[..IndexOf(name, '|')]);
    assert t.commands[n].subs[m].id in SubcommandIds(t);
  }

  lemma CommandIsCovered(t: Table, n: Rule, r: Rule)
    requires ValidTable(t) && Canonical(t, n) && Canonical(t, r)
    requires Supersedes(n.name, r.name) && n.name != r.name && r.name[0] != '@'
    ensures CoveredBy(SubcommandIds(t), EffectOf(t, r), EffectOf(t, n))
  {
    hide Canonical, EffectOf, LookupCommand, ValidTable, SubIds, SubcommandIds;
    var k, top := CanonicalBar(t, r);
    BarIsUnique(r.name, k, |n.name|);
    assert n.name == r.name[..k];
    CanonicalText(t, n);
    if top.subs != map[] {
      SubcommandOf(t, n.name, top, LookupCommand(t, r.name).value.sub);
    }
  }

  lemma SupersededIsCovered(t: Table, n: Rule, r: Rule)
    requires ValidTable(t) && Canonical(t, n) && Canonical(t, r) && Supersedes(n.name, r.name)
    ensures CoveredBy(SubcommandIds(t), EffectOf(t, r), EffectOf(t, n))
  {
    CanonicalText(t, r);
    CanonicalText(t, n);
    if r.name[0] == '@' {
      CategoryIsCovered(t, n, r);
    } else if r.name != n.name {
      CommandIsCovered(t, n, r);
    } else if '|' in r.name {
      SameBarRuleIsCovered(t, n, r);
    }
  }

  lemma BarRuleAddsNoSubcommandArg(t: Table, r: Rule)
    requires ValidTable(t) && Canonical(t, r) && '|' in r.name && r.name[0] != '@'
    ensures AddsNoArgFor(SubcommandIds(t), EffectOf(t, r))
  {
    hide Canonical, EffectOf;
    var k, top := CanonicalBar(t, r);
    assert top in t.commands.Values;
  }

  lemma RuleAddsNoSubcommandArg(t: Table, r: Rule)
    requires ValidTable(t) && Canonical(t, r)
    ensures AddsNoArgFor(SubcommandIds(t), EffectOf(t, r))
  {
    hide ValidTable, SubcommandIds, LookupCommand, InBitmap, CategoryBits, CategoryResets;
    CanonicalText(t, r);
    if r.name[0] != '@' && '|' in r.name {
      BarRuleAddsNoSubcommandArg(t, r);
    }
  }

  // ---- the invariant of every selector ----

  predicate AllCanonical(t: Table, rules: seq<Rule>) {
    forall i :: 0 <= i < |rules| ==> Canonical(t, rules[i])
  }

  function EffectsOf(t: Table, rules: seq<Rule>): (es: seq<Effect>)
    requires AllCanonical(t, rules)
    ensures |es| == |rules| && forall i :: 0 <= i < |rules| ==> es[i] == EffectOf(t, rules[i])
  {
    if rules == [] then [] else [EffectOf(t, rules[0])] + EffectsOf(t, rules[1..])
  }

  predicate Compact(rules: seq<Rule>) {
    forall i, j :: 0 <= i < j < |rules| ==> !Supersedes(rules[j].name, rules[i].name)
  }

  function StartOf(p: CommandPerms): CommandPerms {
    Base(RESERVED_BIT in p.bits)
  }

  /** The retained rules are compact and, run from +@all or -@all, give the bitmap and the first-args. */
  ghost predicate Consistent(t: Table, p: CommandPerms) {
    && AllCanonical(t, p.rules)
    && Compact(p.rules)
    && NoArgsFor(SubcommandIds(t), AccessOf(p))
    && Run(EffectsOf(t, p.rules), AccessOf(StartOf(p))) == AccessOf(p)
  }

  lemma BaseIsConsistent(t: Table, all: bool)
    ensures Consistent(t, Base(all))
  {
    assert RESERVED_BIT in Base(all).bits <==> all;
  }

  lemma {:induction false} EffectsOfKept(t: Table, rules: seq<Rule>, added: string)
    requires AllCanonical(t, rules)
    ensures AllCanonical(t, DropSuperseded(rules, added))
    ensures EffectsOf(t, DropSuperseded(rules, added)) == KeptEffects(EffectsOf(t, rules), rules, added)
  {
    hide Canonical, EffectOf, Supersedes;
    if rules != [] {
      EffectsOfKept(t, rules[1..], added);
    }
  }

  lemma EffectsOfAppend(t: Table, rules: seq<Rule>, last: Rule)
    requires AllCanonical(t, rules) && Canonical(t, last)
    ensures AllCanonical(t, rules + [last])
    ensures EffectsOf(t, rules + [last]) == EffectsOf(t, rules) + [EffectOf(t, last)]
  {}

  /** Replaying the compacted list ends like applying `n` after the full list. */
  lemma CompactionKeepsOutcome(t: Table, rules: seq<Rule>, n: Rule, start: Access)
    requires ValidTable(t) && AllCanonical(t, rules) && Canonical(t, n) && NoArgsFor(SubcommandIds(t), start)
    ensures AllCanonical(t, DropSuperseded(rules, n.name) + [n])
    ensures Run(EffectsOf(t, DropSuperseded(rules, n.name) + [n]), start)
         == Overwrite(EffectOf(t, n), Run(EffectsOf(t, rules), start))
  {
    var es, e, kept := EffectsOf(t, rules), EffectOf(t, n), DropSuperseded(rules, n.name);
    forall i | 0 <= i < |rules| ensures AddsNoArgFor(SubcommandIds(t), es[i]) {
      RuleAddsNoSubcommandArg(t, rules[i]);
    }
    forall i | 0 <= i < |rules| && Supersedes(n.name, rules[i].name)
      ensures CoveredBy(SubcommandIds(t), es[i], e)
    {
      SupersededIsCovered(t, n, rules[i]);
    }
    DroppingIsHidden(SubcommandIds(t), e, es, rules, n.name, start, start);
    EffectsOfKept(t, rules, n.name);
    EffectsOfAppend(t, kept, n);
    RunAppend(EffectsOf(t, kept), e, start);
    OverwriteHidesRegion(e, Run(es, start), Run(EffectsOf(t, kept), start));
  }

  lemma {:induction false} DroppedStaysCompact(rules: seq<Rule>, n: Rule)
    requires Compact(rules)
    ensures Compact(DropSuperseded(rules, n.name) + [n])
  {
    hide Supersedes;
    if rules != [] {
      var rest := DropSuperseded(rules[1..], n.name);
      DroppedStaysCompact(rules[1..], n);
      DropKeepsMembers(rules[1..], n.name);
      var out := DropSuperseded(rules, n.name) + [n];
      assert Supersedes(n.name, rules[0].name) ==> out == rest + [n];
      assert !Supersedes(n.name, rules[0].name) ==> out == [rules[0]] + (rest + [n]);
    }
  }

  lemma DropKeepsMembers(rules: seq<Rule>, added: string)
    ensures forall i :: 0 <= i < |DropSuperseded(rules, added)| ==> DropSuperseded(rules, added)[i] in rules
  {}

  lemma CommandMissesReserved(t: Table, name: string)
    requires ValidTable(t)
    ensures LookupCommand(t, name).Some? ==> RESERVED_BIT !in CommandBits(LookupCommand(t, name).value)
  {
    var base := Lower(name[..IndexOf(name, '|')]);
    assert base in t.commands ==> ValidTop(base, t.commands[base]);
  }

  lemma ReservedBitIsNeverARule(t: Table, op: string, c: RuleChange)
    requires ValidTable(t) && |op| > 0 && ParseRule(t, op) == Ok(c)
    ensures RESERVED_BIT !in c.effect.bits
  {
    hide LookupCommand, Lower, ValidName, IndexOf, LastIndexOf;
    var body := op[1..];
    if '|' in body {
      CommandMissesReserved(t, body[..LastIndexOf(body, '|')]);
    }
    CommandMissesReserved(t, body);
  }

  lemma WordsOfCommands(op: string)
    requires IsCommandOp(op) && !IsAlias(op)
    ensures |op| > 0 && (op[0] == '+' || op[0] == '-')
  {}

  lemma ChangeKeepsBase(p: CommandPerms, c: RuleChange)
    requires RESERVED_BIT !in c.effect.bits
    ensures StartOf(ApplyChange(p, c)) == StartOf(p) && ApplyChange(p, c).rules == DropSuperseded(p.rules, c.rule.name) + [c.rule]
    ensures AccessOf(ApplyChange(p, c)) == AccessOf(ApplyEffect(p, c.effect))
  {}

  lemma NoArgAdded(subs: set<nat>, e: Effect, a: Access)
    requires NoArgsFor(subs, a) && AddsNoArgFor(subs, e)
    ensures NoArgsFor(subs, Overwrite(e, a))
  {}

  lemma StartHasNoArgs(subs: set<nat>, p: CommandPerms)
    ensures NoArgsFor(subs, AccessOf(StartOf(p)))
  {}

  /** Every accepted rule, +@all and -@all included, keeps the retained rules consistent. */
  lemma SetCommandsKeepsConsistent(t: Table, p: CommandPerms, op: string, q: CommandPerms)
    requires ValidTable(t) && Consistent(t, p) && IsCommandOp(op) && '\0' !in op && SetCommands(t, p, op) == Ok(q)
    ensures Consistent(t, q)
  {
    hide EqNoCase, ParseRule, Canonical, ValidTable, ApplyEffect, Overwrite, ArgsOf, SubcommandIds, Run, Supersedes,
      DropSuperseded, EffectsOf, EffectOf;
    if IsAlias(op) {
      BaseIsConsistent(t, true);
      BaseIsConsistent(t, false);
    } else {
      var c := ParseRule(t, op).value;
      WordsOfCommands(op);
      var start := AccessOf(StartOf(p));
      AcceptedRuleIsCanonical(t, op, c);
      ReservedBitIsNeverARule(t, op, c);
      StartHasNoArgs(SubcommandIds(t), p);
      CompactionKeepsOutcome(t, p.rules, c.rule, start);
      OverwriteIsApply(p, c.effect);
      RuleAddsNoSubcommandArg(t, c.rule);
      DroppedStaysCompact(p.rules, c.rule);
      ChangeKeepsBase(p, c);
      NoArgAdded(SubcommandIds(t), EffectOf(t, c.rule), AccessOf(p));
      assert AccessOf(q) == Overwrite(EffectOf(t, c.rule), AccessOf(p));
    }
  }

  // ---- replaying ----

  /** ACLSetSelector over retained rules, one after the other, as when a selector is described or recomputed. */
  function Replay(t: Table, p: CommandPerms, rules: seq<Rule>): Result<CommandPerms>
    decreases |rules|
  {
    if rules == [] then Ok(p)
    else
      match SetCommands(t, p, rules[0].Text())
      case Err(e) => Err(e)
      case Ok(q) => Replay(t, q, rules[1..])
  }

  lemma DropNothing(rules: seq<Rule>, added: string)
    requires forall i :: 0 <= i < |rules| ==> !Supersedes(added, rules[i].name)
    ensures DropSuperseded(rules, added) == rules
  {}

  lemma SetCanonical(t: Table, p: CommandPerms, n: Rule)
    requires Canonical(t, n) && forall i :: 0 <= i < |p.rules| ==> !Supersedes(n.name, p.rules[i].name)
    ensures var r := SetCommands(t, p, n.Text());
            r.Ok? && AccessOf(r.value) == Overwrite(EffectOf(t, n), AccessOf(p)) && r.value.rules == p.rules + [n]
  {
    DropNothing(p.rules, n.name);
    OverwriteIsApply(p, EffectOf(t, n));
  }

  lemma NextSupersedesNone(done: seq<Rule>, rest: seq<Rule>)
    requires Compact(done + rest) && rest != []
    ensures forall i :: 0 <= i < |done| ==> !Supersedes(rest[0].name, done[i].name)
  {
    var all, k := done + rest, |done|;
    assert all[k] == rest[0];
    assert forall i :: 0 <= i < k ==> all[i] == done[i] && !Supersedes(all[k].name, all[i].name);
  }

  lemma {:induction false} ReplayRuns(t: Table, p: CommandPerms, rules: seq<Rule>)
    requires AllCanonical(t, rules) && Compact(p.rules + rules)
    ensures var r := Replay(t, p, rules);
            r.Ok? && AccessOf(r.value) == Run(EffectsOf(t, rules), AccessOf(p)) && r.value.rules == p.rules + rules
    decreases |rules|
  {
    hide SetCommands, Canonical, EffectOf, Overwrite, AccessOf, Supersedes;
    if rules == [] {
      assert p.rules + rules == p.rules;
    } else {
      var n, rest := rules[0], rules[1..];
      NextSupersedesNone(p.rules, rules);
      SetCanonical(t, p, n);
      var r := SetCommands(t, p, n.Text());
      assert r.value.rules + rest == p.rules + rules;
      assert AllCanonical(t, rest);
      ReplayRuns(t, r.value, rest);
      assert EffectsOf(t, rules) == [EffectOf(t, n)] + EffectsOf(t, rest);
    }
  }

  /** A consistent selector is rebuilt from its retained rules: same bitmap, same first-args, same rules. */
  lemma ReplayReproduces(t: Table, p: CommandPerms)
    requires Consistent(t, p)
    ensures var r := Replay(t, StartOf(p), p.rules);
            r.Ok? && r.value.bits == p.bits && ArgsOf(r.value.firstArgs) == ArgsOf(p.firstArgs) && r.value.rules == p.rules
  {
    assert StartOf(p).rules + p.rules == p.rules;
    ReplayRuns(t, StartOf(p), p.rules);
  }

  /** Any sequence of ACLSetSelector calls; a refused one leaves the selector as it was. */
  function SetAll(t: Table, s: Selector, ops: seq<string>): Selector
    decreases |ops|
  {
    if ops == [] then s
    else
      var r := SetSelector(t, s, ops[0]);
      SetAll(t, if r.Ok? then r.value else s, ops[1..])
  }

  /** Whatever was done to a selector, its retained rules replay to its bitmap and first-args. */
  lemma {:induction false} EverySelectorReplays(t: Table, s: Selector, ops: seq<string>)
    requires ValidTable(t) && Consistent(t, s.commands)
    ensures var p := SetAll(t, s, ops).commands;
            var r := Replay(t, StartOf(p), p.rules);
            && Consistent(t, p)
            && r.Ok? && r.value.bits == p.bits && ArgsOf(r.value.firstArgs) == ArgsOf(p.firstArgs)
    decreases |ops|
  {
    hide Consistent, Replay, ValidTable;
    if ops == [] {
      ReplayReproduces(t, s.commands);
    } else {
      var r := SetSelector(t, s, ops[0]);
      if r.Ok? && r.value.commands != s.commands {
        SetCommandsKeepsConsistent(t, s.commands, CString(ops[0]), r.value.commands);
      }
      EverySelectorReplays(t, if r.Ok? then r.value else s, ops[1..]);
    }
  }
}
