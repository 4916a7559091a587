/**
 What one ACL rule does to a selector, as a function of the selector's value. The heap object that
 carries a selector out is in AclSelectorObject.dfy and is proved against these functions.
 */
module AclSelector {
  import opened AclText
  import opened AclCommands

  /** errno as ACLSetSelector and ACLSetUser set it. */
  datatype Error = EINVAL | ENOENT | EEXIST | EISDIR | ENODEV | EBADMSG | ECHILD

  datatype Result<+T> = Ok(value: T) | Err(error: Error)

  /** One entry of command_rules: "+name" or "-name", the name in lower case. */
  datatype Rule = Rule(allow: bool, name: string) {
    function Text(): string { (if allow then "+" else "-") + name }
  }

  /** The command side of a selector: flag, bitmap, first-arg lists and the retained rules. */
  datatype CommandPerms = CommandPerms(
    allCommands: bool,
    bits: set<nat>,
    firstArgs: map<nat, seq<string>>,
    rules: seq<Rule>)

  datatype KeyPattern = KeyPattern(pattern: string, read: bool, write: bool)

  datatype Selector = Selector(
    root: bool,
    allKeys: bool,
    patterns: seq<KeyPattern>,
    allChannels: bool,
    channels: seq<string>,
    commands: CommandPerms)

  /** What a command rule overwrites: a set of bits, the first-args it flushes, the one it adds. */
  datatype Effect = Effect(allow: bool, bits: set<nat>, resets: set<nat>, add: Option<(nat, string)>)

  datatype RuleChange = RuleChange(effect: Effect, rule: Rule)

  const ALL_BITS: set<nat> := set i: nat | i < USER_COMMAND_BITS_COUNT

  const NoCommands := CommandPerms(false, {}, map[], [])
  const EveryCommand := CommandPerms(true, ALL_BITS, map[], [])

  function Base(all: bool): CommandPerms { if all then EveryCommand else NoCommands }

  /** ACLCreateSelector; `pubsubDefault` is server.acl_pubsub_default having the ALLCHANNELS flag. */
  function NewSelector(root: bool, pubsubDefault: bool): Selector {
    Selector(root, false, [], pubsubDefault, [], NoCommands)
  }

  // ---- command rules ----

  /** Does adding a rule for `added` drop a retained rule for `existing`? */
  predicate Supersedes(added: string, existing: string) {
    existing == added || (|existing| > |added| && existing[..|added|] == added && existing[|added|] == '|')
  }

  function DropSuperseded(rules: seq<Rule>, added: string): (r: seq<Rule>)
    ensures |r| <= |rules|
    ensures forall i :: 0 <= i < |r| ==> r[i] in rules && !Supersedes(added, r[i].name)
  {
    if rules == [] then []
    else (if Supersedes(added, rules[0].name) then [] else [rules[0]]) + DropSuperseded(rules[1..], added)
  }

  function InBitmap(ids: set<nat>): set<nat> {
    set id | id in ids && id < USER_COMMAND_BITS_COUNT
  }

  function CommandEffect(c: Command, allow: bool): Effect {
    Effect(allow, InBitmap(CommandBits(c)), {c.Id()}, None)
  }

  /** The "+..." and "-..." branches of ACLSetSelector. */
  function ParseRule(t: Table, op: string): Result<RuleChange>
    requires |op| > 0
  {
    var allow, body := op[0] == '+', op[1..];
    if |body| > 0 && body[0] == '@' then ParseCategoryRule(t, allow, body)
    else if allow && '|' in body then ParseBarRule(t, body)
    else
      match LookupCommand(t, body)
      case None => Err(ENOENT)
      case Some(c) => Ok(RuleChange(CommandEffect(c, allow), Rule(allow, Lower(c.FullName()))))
  }

  function ParseCategoryRule(t: Table, allow: bool, body: string): Result<RuleChange>
    requires |body| > 0
  {
    var category := Lower(body[1..]);
    if category !in t.categories then Err(ENOENT)
    else
      var flag := t.categories[category];
      Ok(RuleChange(Effect(allow, InBitmap(CategoryBits(t, flag)), CategoryResets(t, flag), None),
                    Rule(allow, Lower(body))))
  }

  /** "+command|first-arg", or "+container|subcommand". */
  function ParseBarRule(t: Table, body: string): Result<RuleChange>
    requires '|' in body
  {
    var k := LastIndexOf(body, '|');
    BarRule(body, LookupCommand(t, body[..k]), LookupCommand(t, body), body[k + 1..])
  }

  /** `base` is the command named before the last '|' of `body`, `whole` the one named by all of it. */
  function BarRule(body: string, base: Option<Command>, whole: Option<Command>, sub: string): Result<RuleChange> {
    if base.None? then Err(ENOENT)
    else if base.value.SubCommand? then Err(ECHILD)
    else if sub == "" then Err(EINVAL)
    else if base.value.top.subs == map[] then
      Ok(RuleChange(Effect(true, {}, {}, Some((base.value.top.id, sub))), Rule(true, Lower(body))))
    else if whole.None? then Err(ENOENT)
    else Ok(RuleChange(CommandEffect(whole.value, true), Rule(true, Lower(body))))
  }

  function ArgsFor(args: map<nat, seq<string>>, id: nat): seq<string> {
    if id in args then args[id] else []
  }

  predicate HasArg(have: seq<string>, sub: string) {
    exists i :: 0 <= i < |have| && EqNoCase(have[i], sub)
  }

  function AddFirstArg(args: map<nat, seq<string>>, id: nat, sub: string): map<nat, seq<string>> {
    var have := ArgsFor(args, id);
    if HasArg(have, sub) then args else args[id := have + [sub]]
  }

  function ApplyEffect(p: CommandPerms, e: Effect): CommandPerms {
    var kept := map id | id in p.firstArgs && id !in e.resets :: p.firstArgs[id];
    p.(allCommands := p.allCommands && (e.allow || e.bits == {}),
       bits := if e.allow then p.bits + e.bits else p.bits - e.bits,
       firstArgs := if e.add.Some? then AddFirstArg(kept, e.add.value.0, e.add.value.1) else kept)
  }

  function ApplyChange(p: CommandPerms, c: RuleChange): CommandPerms {
    ApplyEffect(p, c.effect).(rules := DropSuperseded(p.rules, c.rule.name) + [c.rule])
  }

  predicate IsCommandOp(op: string) {
    EqNoCase(op, "allcommands") || EqNoCase(op, "nocommands") || (|op| > 0 && (op[0] == '+' || op[0] == '-'))
  }

  function SetCommands(t: Table, p: CommandPerms, op: string): Result<CommandPerms>
    requires IsCommandOp(op)
  {
    if EqNoCase(op, "allcommands") || EqNoCase(op, "+@all") then Ok(EveryCommand)
    else if EqNoCase(op, "nocommands") || EqNoCase(op, "-@all") then Ok(NoCommands)
    else
      match ParseRule(t, op)
      case Err(e) => Err(e)
      case Ok(c) => Ok(ApplyChange(p, c))
  }

  // ---- key and channel patterns ----

  predicate HasSpaces(s: string) {
    exists i :: 0 <= i < |s| && (IsSpace(s[i]) || s[i] == '\0')
  }

  function UpperIs(c: char, upper: char): bool {
    LowerChar(c) == LowerChar(upper)
  }

  /** The permission letters after '%'; yields the flags and where the pattern starts. */
  function ParsePermissions(op: string, offset: nat, read: bool, write: bool): Result<(bool, bool, nat)>
    requires offset <= |op|
    decreases |op| - offset
  {
    if offset == |op| then Ok((read, write, offset))
    else if UpperIs(op[offset], 'R') && !read then ParsePermissions(op, offset + 1, true, write)
    else if UpperIs(op[offset], 'W') && !write then ParsePermissions(op, offset + 1, read, true)
    else if op[offset] == '~' then Ok((read, write, offset + 1))
    else Err(EINVAL)
  }

  function ParseKeyPattern(op: string): Result<KeyPattern>
    requires |op| > 0
  {
    var perms := if op[0] == '%' then ParsePermissions(op, 1, false, false) else Ok((true, true, 1));
    match perms
    case Err(e) => Err(e)
    case Ok((read, write, offset)) =>
      if !read && !write then Err(EINVAL)
      else if offset > |op| || HasSpaces(op[offset..]) then Err(EINVAL)
      else Ok(KeyPattern(op[offset..], read, write))
  }

  function AddKeyPattern(patterns: seq<KeyPattern>, p: KeyPattern): seq<KeyPattern> {
    if patterns == [] then [p]
    else if patterns[0].pattern == p.pattern then
      [KeyPattern(p.pattern, patterns[0].read || p.read, patterns[0].write || p.write)] + patterns[1..]
    else [patterns[0]] + AddKeyPattern(patterns[1..], p)
  }

  /**
   ACLSetSelector; on an error the selector is left as it was. Words are compared up to a NUL; only key and channel
   patterns are taken in full.
   */
  function SetSelector(t: Table, s: Selector, op: string): Result<Selector> {
    SetSelectorWord(t, s, op, CString(op))
  }

  function SetSelectorWord(t: Table, s: Selector, op: string, word: string): Result<Selector> {
    if EqNoCase(word, "allkeys") || EqNoCase(word, "~*") then Ok(s.(allKeys := true, patterns := []))
    else if EqNoCase(word, "resetkeys") then Ok(s.(allKeys := false, patterns := []))
    else if EqNoCase(word, "allchannels") || EqNoCase(word, "&*") then Ok(s.(allChannels := true, channels := []))
    else if EqNoCase(word, "resetchannels") then Ok(s.(allChannels := false, channels := []))
    else if IsCommandOp(word) then
      match SetCommands(t, s.commands, word)
      case Err(e) => Err(e)
      case Ok(p) => Ok(s.(commands := p))
    else if |op| > 0 && (op[0] == '~' || op[0] == '%') then
      if s.allKeys then Err(EEXIST)
      else
        match ParseKeyPattern(op)
        case Err(e) => Err(e)
        case Ok(p) => Ok(s.(patterns := AddKeyPattern(s.patterns, p)))
    else if |op| > 0 && op[0] == '&' then
      if s.allChannels then Err(EISDIR)
      else if HasSpaces(op[1..]) then Err(EINVAL)
      else Ok(s.(channels := if op[1..] in s.channels then s.channels else s.channels + [op[1..]]))
    else Err(EINVAL)
  }
}
