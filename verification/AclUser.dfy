/** ACL users as values: applying one modifier, applying a whole ACL string, describing. */
module AclUser {
  import opened AclText
  import opened AclCommands
  import opened AclSelector
  import opened AclReplay
  import opened AclSplitArgs

  /** What the server fixes: the command table, acl-pubsub-default, and the password hash. */
  datatype Config = Config(table: Table, pubsubDefault: bool, hash: string -> string)

  datatype Flags = Flags(enabled: bool, disabled: bool, nopass: bool, skipSanitize: bool, sanitize: bool)

  /** `selectors[0]` is the root selector. */
  datatype User = User(flags: Flags, passwords: seq<string>, selectors: seq<Selector>)

  function NewUser(cfg: Config): User {
    User(Flags(false, true, false, false, true), [], [NewSelector(true, cfg.pubsubDefault)])
  }

  predicate ValidHash(h: string) {
    |h| == 64 && forall i :: 0 <= i < 64 ==> 'a' <= h[i] <= 'f' || '0' <= h[i] <= '9'
  }

  ghost predicate ValidConfig(cfg: Config) {
    ValidTable(cfg.table) && forall s :: ValidHash(cfg.hash(s))
  }

  // ---- applying ----

  function SetSelectorAll(t: Table, s: Selector, ops: seq<string>): Result<Selector>
    decreases |ops|
  {
    if ops == [] then Ok(s)
    else
      match SetSelector(t, s, ops[0])
      case Err(e) => Err(e)
      case Ok(s') => SetSelectorAll(t, s', ops[1..])
  }

  /** aclCreateSelectorFromOpSet: "(op op ...)". Unbalanced quotes are no error here: the selector stays empty. */
  function SelectorFromOpSet(cfg: Config, op: string): Result<Selector>
    requires |op| >= 2
  {
    match SplitArgs(op[1..|op| - 1])
    case None => Ok(NewSelector(false, cfg.pubsubDefault))
    case Some(argv) => SetSelectorAll(cfg.table, NewSelector(false, cfg.pubsubDefault), argv)
  }

  predicate IsBracketed(op: string) {
    |op| >= 2 && op[0] == '(' && op[|op| - 1] == ')'
  }

  function RemoveFirst(list: seq<string>, x: string): seq<string>
    requires x in list
  {
    if list[0] == x then list[1..] else [list[0]] + RemoveFirst(list[1..], x)
  }

  function AddPassword(u: User, hash: string): User {
    u.(passwords := if hash in u.passwords then u.passwords else u.passwords + [hash],
       flags := u.flags.(nopass := false))
  }

  function RemovePassword(u: User, hash: string): Result<User> {
    if hash in u.passwords then Ok(u.(passwords := RemoveFirst(u.passwords, hash))) else Err(ENODEV)
  }

  function OnRoot(cfg: Config, u: User, op: string): (r: Result<User>)
    requires u.selectors != []
    ensures r.Ok? ==> r.value.selectors != []
  {
    match SetSelector(cfg.table, u.selectors[0], op)
    case Err(e) => Err(e)
    case Ok(s) => Ok(u.(selectors := [s] + u.selectors[1..]))
  }

  /** The flag words of ACLSetUser; None when `op` is none of them. */
  function FlagWord(u: User, op: string): Option<User> {
    if EqNoCase(op, "on") then Some(u.(flags := u.flags.(enabled := true, disabled := false)))
    else if EqNoCase(op, "off") then Some(u.(flags := u.flags.(disabled := true, enabled := false)))
    else if EqNoCase(op, "skip-sanitize-payload") then Some(u.(flags := u.flags.(skipSanitize := true, sanitize := false)))
    else if EqNoCase(op, "sanitize-payload") then Some(u.(flags := u.flags.(sanitize := true, skipSanitize := false)))
    else if EqNoCase(op, "nopass") then Some(u.(flags := u.flags.(nopass := true), passwords := []))
    else if EqNoCase(op, "resetpass") then Some(u.(flags := u.flags.(nopass := false), passwords := []))
    else None
  }

  /** ACLSetUser, all but "reset". Words are compared up to a NUL. */
  function SetUserOnce(cfg: Config, u: User, op: string): (r: Result<User>)
    requires u.selectors != []
    ensures r.Ok? ==> r.value.selectors != []
  {
    SetUserWord(cfg, u, op, CString(op))
  }

  function SetUserWord(cfg: Config, u: User, op: string, word: string): (r: Result<User>)
    requires u.selectors != []
    ensures r.Ok? ==> r.value.selectors != []
  {
    if op == "" then Ok(u)
    else if FlagWord(u, word).Some? then Ok(FlagWord(u, word).value)
    else if op[0] == '>' then Ok(AddPassword(u, cfg.hash(op[1..])))
    else if op[0] == '#' then if ValidHash(op[1..]) then Ok(AddPassword(u, op[1..])) else Err(EBADMSG)
    else if op[0] == '<' then RemovePassword(u, cfg.hash(op[1..]))
    else if op[0] == '!' then if ValidHash(op[1..]) then RemovePassword(u, op[1..]) else Err(EBADMSG)
    else if IsBracketed(op) then
      match SelectorFromOpSet(cfg, op)
      case Err(e) => Err(e)
      case Ok(s) => Ok(u.(selectors := u.selectors + [s]))
    else if EqNoCase(word, "clearselectors") then Ok(u.(selectors := u.selectors[..1]))
    else OnRoot(cfg, u, op)
  }

  function ResetOps(cfg: Config): seq<string> {
    ["resetpass", "resetkeys", "resetchannels"] + (if cfg.pubsubDefault then ["allchannels"] else [])
    + ["off", "sanitize-payload", "clearselectors", "-@all"]
  }

  function SetUserOnceAll(cfg: Config, u: User, ops: seq<string>): (r: Result<User>)
    requires u.selectors != []
    ensures r.Ok? ==> r.value.selectors != []
    decreases |ops|
  {
    if ops == [] then Ok(u)
    else
      match SetUserOnce(cfg, u, ops[0])
      case Err(e) => Err(e)
      case Ok(u') => SetUserOnceAll(cfg, u', ops[1..])
  }

  /** ACLSetUser. */
  function SetUser(cfg: Config, u: User, op: string): (r: Result<User>)
    requires u.selectors != []
    ensures r.Ok? ==> r.value.selectors != []
  {
    if EqNoCase(CString(op), "reset") then SetUserOnceAll(cfg, u, ResetOps(cfg)) else SetUserOnce(cfg, u, op)
  }

  // ---- applying a whole ACL string ----

  predicate Opens(op: string) {
    op != "" && op[0] == '(' && op[|op| - 1] != ')'
  }

  predicate Closes(op: string) {
    op != "" && op[|op| - 1] == ')'
  }

  /** ACLMergeSelectorArguments; `open` is the selector being put together. None: an unmatched parenthesis. */
  function MergeArgs(argv: seq<string>, open: Option<string>): Option<seq<string>>
    decreases |argv|
  {
    if argv == [] then if open.Some? then None else Some([])
    else if open.None? && Opens(argv[0]) then MergeArgs(argv[1..], Some(argv[0]))
    else if open.Some? && !Closes(argv[0]) then MergeArgs(argv[1..], Some(open.value + " " + argv[0]))
    else
      match MergeArgs(argv[1..], None)
      case None => None
      case Some(rest) => Some([if open.Some? then open.value + " " + argv[0] else argv[0]] + rest)
  }

  function SetUserAll(cfg: Config, u: User, ops: seq<string>): (r: Result<User>)
    requires u.selectors != []
    ensures r.Ok? ==> r.value.selectors != []
    decreases |ops|
  {
    if ops == [] then Ok(u)
    else
      match SetUser(cfg, u, ops[0])
      case Err(e) => Err(e)
      case Ok(u') => SetUserAll(cfg, u', ops[1..])
  }

  /** ACLStringSetUser: every modifier is applied to a copy, which replaces the user only if all succeed. */
  function StringSetUser(cfg: Config, u: User, argv: seq<string>): Result<User>
    requires u.selectors != []
  {
    match MergeArgs(argv, None)
    case None => Err(EINVAL)
    case Some(ops) => SetUserAll(cfg, u, ops)
  }

  // ---- describing ----

  /** The pieces, each followed by a space. */
  function Spaced(pieces: seq<string>): string {
    if pieces == [] then "" else pieces[0] + " " + Spaced(pieces[1..])
  }

  function RuleTexts(rules: seq<Rule>): (r: seq<string>)
    ensures |r| == |rules| && forall i :: 0 <= i < |rules| ==> r[i] == rules[i].Text()
  {
    seq(|rules|, i requires 0 <= i < |rules| => rules[i].Text())
  }

  /** command_rules as the string it is kept in. */
  function RulesText(rules: seq<Rule>): string {
    Join(RuleTexts(rules), ' ')
  }

  /** ACLDescribeSelectorCommandRules, up to the sanity check: the text it returns. */
  function DescribeCommandRules(p: CommandPerms): string {
    var text := (if RESERVED_BIT in p.bits then "+@all " else "-@all ")
              + (if RulesText(p.rules) != "" then RulesText(p.rules) + " " else "");
    text[..|text| - 1]
  }

  function KeyToken(p: KeyPattern): string {
    (if p.read && p.write then "~" else if p.read then "%R~" else "%W~") + p.pattern
  }

  function KeyTokens(patterns: seq<KeyPattern>): (r: seq<string>)
    ensures |r| == |patterns| && forall i :: 0 <= i < |patterns| ==> r[i] == KeyToken(patterns[i])
  {
    seq(|patterns|, i requires 0 <= i < |patterns| => KeyToken(patterns[i]))
  }

  function ChannelTokens(channels: seq<string>): (r: seq<string>)
    ensures |r| == |channels| && forall i :: 0 <= i < |channels| ==> r[i] == "&" + channels[i]
  {
    seq(|channels|, i requires 0 <= i < |channels| => "&" + channels[i])
  }

  function DescribeSelector(s: Selector): string {
    (if s.allKeys then "~* " else Spaced(KeyTokens(s.patterns)))
    + (if s.allChannels then "&* " else "resetchannels " + Spaced(ChannelTokens(s.channels)))
    + DescribeCommandRules(s.commands)
  }

  function FlagTokens(f: Flags): seq<string> {
    (if f.enabled then ["on"] else []) + (if f.disabled then ["off"] else []) + (if f.nopass then ["nopass"] else [])
    + (if f.skipSanitize then ["skip-sanitize-payload"] else []) + (if f.sanitize then ["sanitize-payload"] else [])
  }

  function PasswordTokens(passwords: seq<string>): (r: seq<string>)
    ensures |r| == |passwords| && forall i :: 0 <= i < |passwords| ==> r[i] == "#" + passwords[i]
  {
    seq(|passwords|, i requires 0 <= i < |passwords| => "#" + passwords[i])
  }

  function DescribeSelectors(selectors: seq<Selector>): string {
    if selectors == [] then ""
    else
      (if selectors[0].root then DescribeSelector(selectors[0]) else " (" + DescribeSelector(selectors[0]) + ")")
      + DescribeSelectors(selectors[1..])
  }

  /** ACLDescribeUser. */
  function DescribeUser(u: User): string {
    Spaced(FlagTokens(u.flags)) + Spaced(PasswordTokens(u.passwords)) + DescribeSelectors(u.selectors)
  }

  // ---- the invariant of every user ----

  predicate Distinct(list: seq<string>) {
    forall i, j :: 0 <= i < j < |list| ==> list[i] != list[j]
  }

  predicate ValidPattern(p: KeyPattern) {
    (p.read || p.write) && !HasSpaces(p.pattern)
  }

  predicate ValidPatterns(patterns: seq<KeyPattern>) {
    && (forall i, j :: 0 <= i < j < |patterns| ==> patterns[i].pattern != patterns[j].pattern)
    && (forall i :: 0 <= i < |patterns| ==> ValidPattern(patterns[i]))
  }

  predicate ValidKeys(s: Selector) {
    ValidPatterns(s.patterns) && (s.allKeys ==> s.patterns == [])
  }

  predicate ValidChannels(s: Selector) {
    && (s.allChannels ==> s.channels == [])
    && Distinct(s.channels)
    && (forall i :: 0 <= i < |s.channels| ==> s.channels[i] != "*" && !HasSpaces(s.channels[i]))
  }

  ghost predicate ValidSelector(t: Table, s: Selector) {
    Consistent(t, s.commands) && ValidKeys(s) && ValidChannels(s)
  }

  ghost predicate ValidSelectors(t: Table, selectors: seq<Selector>) {
    selectors != [] && forall i :: 0 <= i < |selectors| ==> ValidSelector(t, selectors[i]) && (selectors[i].root <==> i == 0)
  }

  predicate ValidPasswords(passwords: seq<string>) {
    Distinct(passwords) && forall i :: 0 <= i < |passwords| ==> ValidHash(passwords[i])
  }

  predicate ValidFlags(u: User) {
    && u.flags.enabled != u.flags.disabled
    && u.flags.skipSanitize != u.flags.sanitize
    && (u.flags.nopass ==> u.passwords == [])
  }

  ghost predicate ValidUser(cfg: Config, u: User) {
    ValidFlags(u) && ValidPasswords(u.passwords) && ValidSelectors(cfg.table, u.selectors)
  }
}
