# Verified models of the Redis core, a business-hours scheduler and a rate limiter

A Dafny project that models the hardest logic of the repository and proves what it promises. The C sources are those
of the vendored Redis under `modalgateway-Tops-1/modalgateway-Tops-1/redis-stable/src`; two smaller algorithms come
from the application code. Check everything with `dafny verify dfyconfig.toml`.

## What is modelled

**Access control lists** (`acl.c`). A selector keeps its command permissions three times: as a bitmap, as a set of
allowed first arguments per command, and as a compacted string of rules. The server replays the string whenever it
describes a selector and panics if the bitmap comes out differently. `AclSelector` says what each operation means;
`AclReplay` proves that after any sequence of operations replaying the list of rules gives the same outcome.
`AclSplitArgs` is sdssplitargs, with quotes and escapes, and `SdsRepr` its inverse sdscatrepr; `AclRuleText` is the
editing of the rule string, and `AclStoredRules` joins them: on which words the replay of the string is the replay of
the list, and describing never panics. `AclRuleBuffer` and `AclSelectorObject` are the imperative form, with the
bitmap as an array and the string as one NUL-terminated buffer edited in place, proved against that meaning for every
word. `AclUser`, `AclDescribe`, `AclRoundTrip` and `AclRoundTripLimit` print a user, split and merge the words
(`AclMerge` is the merging loop), and read them back; `AclReachable` says which modifiers keep a user fit for that.
`AclMeaning`, `AclUserMeaning` and
`AclDecision` say what each word does in terms of the command table, the passwords and the requests accepted later.
`AclCheck` is the permission check over several selectors with a shared cache of key positions; `AclPubsub` the
revocation of subscriptions; `AclLog` the bounded log of denials; `AclCommandId` the numbering of commands. The command
table, glob matching and key extraction are parameters.

**Blocked clients** (`blocked.c`). `BlockedIndex` and `Blocked` hold the two-sided index (client to keys, key to
waiters in arrival order), deletion counts and counters as values; `BlockedServer` is the server that edits them, up to
the loop that serves ready keys and runs commands again. What a command does when it is run again is a script:
it completes and signals keys, or it blocks again and signals none.

**Background jobs** (`bio.c`). `Bio` is a state machine whose steps are the critical sections and the actions between
them: three workers, a shared condition per worker on which the worker and a draining main thread sleep, a job that
stays queued while it is processed, the completion list and the pipe. `BioSafety` proves the invariant; `BioRuns` draws
the conclusions for whole runs, among them that nobody waits forever; `BioOrder` states what a job waits for by the
kinds of jobs.

**Event loop** (`ae.c`, `ae_evport.c`, `ae_kqueue.c`). `AeTimerList`, `AeTimerEffects` and `AeTimers` are
the timers with lazy deletion and reference counts, under callbacks and finalizers that add and delete timers and start
nested passes. `AeEvport` is the protocol of associated and pending descriptors, `AeKqueue` the merge of read and write
events with four masks in a byte.

**Lists** (`adlist.c`). `AdList` works on real nodes; the nodes in order are a ghost sequence.

**Business hours** (`businessHoursUtils.js`). `BusinessHours` proves the due date and the elapsed time against the
number of business minutes in an interval, and inverse to each other.

**Token bucket** (`unified_server.py`). `TokenBucket` proves the rate bound over every run, with the expiry of keys,
and that the limiter refuses nothing else.

**Child records** (`childinfo.c`). `ChildInfo` proves that fixed-size records survive arbitrary short reads.

## Findings

- The printed form `~*` of a pattern "*" with both permissions reads back as the all-keys flag, so such a user does not
  come back: `AclRoundTripLimit.RebuiltIffNoFullStar` gives the exact condition, `AclReachable.FullStarUserIsLost` a user.
- A first-arg with a space, a tab, a newline, a carriage return or a quote is accepted, and does not survive the split
  of the rule string. `AclStoredRules.SplitsBackIff` gives the exact condition on the word. Describing the selector
  can then abort the server (`AclStoredRules.OddWordIsSaneIff`), or recomputing it can change a first-arg
  (`AclStoredRules.QuotesAreDropped`). Without such words describing never aborts (`AclStoredRules.EveryCleanRunIsSane`).
- `aclCreateSelectorFromOpSet` takes unbalanced quotes for an empty list of words instead of an error
  (`AclReachable.OpenQuoteIsAccepted`).
- A time event finalizer that starts a pass can leave the outer pass with a dangling pointer. No pass follows one if no
  finalizer starts a pass (`AeTimers.EventLoop.ProcessTimeEvents`), and for any other actions of the finalizers a pass
  over two deleted timers does (`AeTimers.FinalizerStartsPass`).
- `usUntilEarliestTimer` reads a null pointer exactly if there are timers and all of them are marked deleted
  (`AeTimers.EventLoop.UsUntilEarliestTimer`, `AeTimers.OnlyTimerDeleted`).
- A quick return of `signalKeyAsReadyLogic` can lose the signal for a waiter that the serving loop would serve:
  `Blocked.SignalLostIff` gives the exact condition, `BlockedServer.StreamReaderMissesList` and
  `BlockedServer.ModuleMissesString` two states. A waiter that is blocked on the type of the value is never missed.
- The 60 second expiry of a bucket is harmless exactly if 60 * rate >= capacity, as configured.
- The comment in `blocked.c` at lines 329-334 speaks of moving clients whose type does not fit to the other side of the
  list; the code leaves them where they are, and the model follows the code.
- The early exit of `getUpcomingChannelList` compares strings by address, because the list has no match method; with
  duplicated strings it is only taken for a user without channels (`AclPubsub.DuplicatesAreNeverKept`).
- `aeDeleteFileEvent` reads the events array out of bounds for a descriptor that is in range of the set but above the
  grown array (`AeEvport.EventLoop.DeleteFileEvent`); `connSocketClose` calls it for any descriptor
  (`AeEvport.ClosesOutOfBounds`).

## Model

| member | source | states |
|---|---|---|
| AclReplay.EverySelectorReplays | modalgateway-Tops-1/modalgateway-Tops-1/redis-stable/src/acl.c:760-813 | for every sequence of ACLSetSelector calls, accepted or refused, the list of retained rules replayed from +@all or -@all is accepted throughout and gives exactly the same bitmap and, per command, the same first-args up to case |
| AclReplay.ReplayReproduces | modalgateway-Tops-1/modalgateway-Tops-1/redis-stable/src/acl.c:760-813 | one consistent selector is rebuilt by its retained rules: bitmap, first-args and the rules themselves |
| AclReplay.SetCommandsKeepsConsistent | modalgateway-Tops-1/modalgateway-Tops-1/redis-stable/src/acl.c:1054-1206 | every accepted command rule, and +@all and -@all, keep the retained rules compact and in agreement with bitmap and first-args |
| AclReplay.CompactionKeepsOutcome | modalgateway-Tops-1/modalgateway-Tops-1/redis-stable/src/acl.c:620-628 | dropping the superseded rules and appending the new one ends like appending it to the full list |
| AclReplay.DroppingIsHidden | modalgateway-Tops-1/modalgateway-Tops-1/redis-stable/src/acl.c:574-616 | a dropped rule could only matter where the new rule overwrites the outcome |
| AclReplay.SupersededIsCovered | modalgateway-Tops-1/modalgateway-Tops-1/redis-stable/src/acl.c:600-610 | whenever the name test drops a rule, the new rule overwrites every bit and first-arg the dropped one can touch |
| AclReplay.CategoryIsCovered | modalgateway-Tops-1/modalgateway-Tops-1/redis-stable/src/acl.c:654-668 | a category rule covers the same category written with the other sign |
| AclReplay.CommandIsCovered | modalgateway-Tops-1/modalgateway-Tops-1/redis-stable/src/acl.c:632-646 | a command rule covers the rules for its subcommands and its first-args |
| AclReplay.AcceptedRuleIsCanonical | modalgateway-Tops-1/modalgateway-Tops-1/redis-stable/src/acl.c:1129-1206 | the retained form of an accepted rule is accepted again and has the same effect, up to the case of a first-arg |
| AclReplay.RuleIgnoresCase | modalgateway-Tops-1/modalgateway-Tops-1/redis-stable/src/acl.c:908-914 | a rule means the same in any case |
| AclReplay.RuleAddsNoSubcommandArg | modalgateway-Tops-1/modalgateway-Tops-1/redis-stable/src/acl.c:1155-1189 | no rule ever adds a first-arg to a subcommand |
| AclReplay.ReservedBitIsNeverARule | modalgateway-Tops-1/modalgateway-Tops-1/redis-stable/src/acl.c:551-558 | no rule other than +@all and -@all touches the reserved last bit |
| AclReplay.OverwriteIsApply | modalgateway-Tops-1/modalgateway-Tops-1/redis-stable/src/acl.c:632-646 | the effect of a rule on the access granted is an overwrite of a fixed region |
| AclCommands.LookupIgnoresCase | modalgateway-Tops-1/modalgateway-Tops-1/redis-stable/src/acl.c:908-914 | command lookup ignores case |
| AclCommands.LookupName | modalgateway-Tops-1/modalgateway-Tops-1/redis-stable/src/acl.c:908-914 | a name that finds a command is its full name up to case |
| AclCommandId.CommandIds.GetCommandID | modalgateway-Tops-1/modalgateway-Tops-1/redis-stable/src/acl.c:1530-1555 | ids are distinct, stable for a name in any case, and never the reserved bit; a new name gets the least number not given yet, but for that bit |
| AclCommandId.CommandIds.Clear | modalgateway-Tops-1/modalgateway-Tops-1/redis-stable/src/acl.c:1558-1562 | clearing forgets every id |
| AclCommandId.NumberedTableIsValid | modalgateway-Tops-1/modalgateway-Tops-1/redis-stable/src/acl.c:1545-1553 | a command table numbered by it is one the replay result applies to |
| AclSplitArgs.SplitLine | modalgateway-Tops-1/modalgateway-Tops-1/redis-stable/src/sds.c:1047-1155 | the loops of sdssplitargs split a line as specified: words, quotes, escapes, and NULL for unbalanced quotes |
| AclSplitArgs.ReadWord | modalgateway-Tops-1/modalgateway-Tops-1/redis-stable/src/sds.c:1056-1130 | the inner loop reads one word and stops behind it |
| AclSplitArgs.SplitBackIff | modalgateway-Tops-1/modalgateway-Tops-1/redis-stable/src/sds.c:1047-1155 | words joined by single spaces are split again as they were if and only if each is nonempty, starts with no white space and holds no space, tab, newline, carriage return, quote or NUL |
| AclSplitArgs.PlainWordsSurvive | modalgateway-Tops-1/modalgateway-Tops-1/redis-stable/src/sds.c:1047-1155 | plain words, joined by single spaces, are split again as they were |
| AclSplitArgs.WordsCost | modalgateway-Tops-1/modalgateway-Tops-1/redis-stable/src/sds.c:1047-1155 | a line is at least as long as its words joined by single spaces, and only plain words can make it as short |
| SdsRepr.CatRepr | modalgateway-Tops-1/modalgateway-Tops-1/redis-stable/src/sds.c:951-975 | the loop writes the bytes in double quotes with escapes |
| SdsRepr.WrittenIsReadBack | modalgateway-Tops-1/modalgateway-Tops-1/redis-stable/src/sds.c:1039-1040 | whatever bytes the words hold, written with sdscatrepr and joined by spaces they are read back by sdssplitargs as they were |
| SdsRepr.UnbalancedIsRefused | modalgateway-Tops-1/modalgateway-Tops-1/redis-stable/src/sds.c:1044-1046 | a quoted word that is not closed, or is followed by something other than white space, makes the whole line unbalanced |
| SdsRepr.SingleQuotedIsReadBack | modalgateway-Tops-1/modalgateway-Tops-1/redis-stable/src/sds.c:1099-1115 | in single quotes every character stands for itself, but for a backslash in front of a quote |
| SdsRepr.HexDigitsAre | modalgateway-Tops-1/modalgateway-Tops-1/redis-stable/src/sds.c:999-1030 | hexadecimal digits are read in both cases, each with its value, and nothing else is one |
| AclRuleText.JoinOfPieces | modalgateway-Tops-1/modalgateway-Tops-1/redis-stable/src/acl.c:574-616 | the pieces that the scan of the rule text sees, joined by single spaces, are the text, whatever it holds |
| AclRuleText.UpdateOfRules | modalgateway-Tops-1/modalgateway-Tops-1/redis-stable/src/acl.c:574-628 | while no rule name holds a space, dropping superseded pieces and appending a rule on the text is doing so on the list of rules |
| AclRuleBuffer.RemoveCommandRule | modalgateway-Tops-1/modalgateway-Tops-1/redis-stable/src/acl.c:574-616 | on any text, the in-place loop over the character buffer leaves exactly the pieces that are not superseded, joined by single spaces |
| AclRuleBuffer.MoveTail | modalgateway-Tops-1/modalgateway-Tops-1/redis-stable/src/acl.c:604-608 | moving the tail cuts the piece out of the held string, the terminator included |
| AclRuleBuffer.FindSpace | modalgateway-Tops-1/modalgateway-Tops-1/redis-stable/src/acl.c:586-596 | the end of the current rule |
| AclRuleBuffer.MatchRule | modalgateway-Tops-1/modalgateway-Tops-1/redis-stable/src/acl.c:600-603 | the test on the buffer is the test on names: equal, or extended with a bar |
| AclRuleText.RulesTextIsTidy | modalgateway-Tops-1/modalgateway-Tops-1/redis-stable/src/acl.c:574-628 | the text of rules without spaces has single spaces, none leading or trailing, and no NUL |
| AclStoredRules.RulesSplitBackIff | modalgateway-Tops-1/modalgateway-Tops-1/redis-stable/src/acl.c:781-789 | sdssplitargs gives the rules back from their text if and only if no rule name holds white space that ends a word, or a quote |
| AclStoredRules.CleanRun | modalgateway-Tops-1/modalgateway-Tops-1/redis-stable/src/acl.c:1037-1212 | over any run of words whose rule words hold no white space and no quotes, the stored text is that of the list of rules |
| AclStoredRules.EveryCleanRunIsSane | modalgateway-Tops-1/modalgateway-Tops-1/redis-stable/src/acl.c:760-813 | whatever such words a new selector was given, describing it never aborts: the text splits, every word is accepted by the fake selector, and the bitmaps are equal |
| AclStoredRules.QuietIsSane | modalgateway-Tops-1/modalgateway-Tops-1/redis-stable/src/acl.c:760-813 | a consistent selector whose rule names hold no white space and no quotes is described without aborting |
| AclStoredRules.SplitsBackIff | modalgateway-Tops-1/modalgateway-Tops-1/redis-stable/src/acl.c:620-628 | the text that an accepted rule word leaves splits back into the retained rules if and only if the word holds no white space that ends a word and no quote |
| AclStoredRules.OddWordIsSaneIff | modalgateway-Tops-1/modalgateway-Tops-1/redis-stable/src/acl.c:1139-1191 | a first-arg with one more character in it is accepted for every character; describing the selector then aborts exactly if that is white space that ends a word, or a quote |
| AclStoredRules.QuotesAreDropped | modalgateway-Tops-1/modalgateway-Tops-1/redis-stable/src/acl.c:674-706 | a first-arg in double quotes is accepted and described with them, and recomputing the selector from its text drops them |
| AclStoredRules.RecomputeReproduces | modalgateway-Tops-1/modalgateway-Tops-1/redis-stable/src/acl.c:674-706 | recomputing a consistent selector without such characters from its text changes no permission and no rule |
| AclSelectorObject.SelectorObject.constructor | modalgateway-Tops-1/modalgateway-Tops-1/redis-stable/src/acl.c:348-366 | a new selector object stands for a new selector |
| AclSelectorObject.SelectorObject.SetCommandBit | modalgateway-Tops-1/modalgateway-Tops-1/redis-stable/src/acl.c:560-572 | one bit of the bitmap changes; clearing one clears ALLCOMMANDS; ids that overflow are ignored |
| AclSelectorObject.SelectorObject.SetSubBits | modalgateway-Tops-1/modalgateway-Tops-1/redis-stable/src/acl.c:636-645 | the bits of all subcommands of a container change |
| AclSelectorObject.SelectorObject.ChangePerm | modalgateway-Tops-1/modalgateway-Tops-1/redis-stable/src/acl.c:632-646 | the object changes as the rule effect says: bits of the command and its subcommands, first-args of the command |
| AclSelectorObject.SelectorObject.SetSubcommandBits | modalgateway-Tops-1/modalgateway-Tops-1/redis-stable/src/acl.c:654-668 | the subcommands that carry the category |
| AclSelectorObject.SelectorObject.SetCategoryBits | modalgateway-Tops-1/modalgateway-Tops-1/redis-stable/src/acl.c:654-668 | the loop over the command table has the effect of the category rule |
| AclSelectorObject.SelectorObject.AddAllowedFirstArg | modalgateway-Tops-1/modalgateway-Tops-1/redis-stable/src/acl.c:945-971 | the first-arg is added unless it is there in some case |
| AclSelectorObject.SelectorObject.UpdateCommandRules | modalgateway-Tops-1/modalgateway-Tops-1/redis-stable/src/acl.c:620-628 | the buffer afterwards holds the text without the superseded pieces, and the new rule behind it |
| AclSelectorObject.SelectorObject.SetCommand | modalgateway-Tops-1/modalgateway-Tops-1/redis-stable/src/acl.c:1129-1206 | the command branches do what the specification of the rule says, or leave the selector unchanged with the same error |
| AclSelectorObject.SelectorObject.SetCategoryRule | modalgateway-Tops-1/modalgateway-Tops-1/redis-stable/src/acl.c:708-716 | category rules |
| AclSelectorObject.SelectorObject.SetBarRule | modalgateway-Tops-1/modalgateway-Tops-1/redis-stable/src/acl.c:1139-1191 | first-arg and subcommand rules, with their errors |
| AclSelectorObject.SelectorObject.SetKeyPattern | modalgateway-Tops-1/modalgateway-Tops-1/redis-stable/src/acl.c:1068-1111 | key patterns with their read and write flags, with their errors |
| AclSelectorObject.SelectorObject.SetSelector | modalgateway-Tops-1/modalgateway-Tops-1/redis-stable/src/acl.c:1037-1212 | the object refines the specification of ACLSetSelector for every word, errors and the text of the rules included |
| AclSelectorObject.SelectorObject.BuildFake | modalgateway-Tops-1/modalgateway-Tops-1/redis-stable/src/acl.c:765-789 | the fake selector is what replaying the split text comes to; it fails exactly if the text does not split or a word is refused |
| AclSelectorObject.SelectorObject.SameBits | modalgateway-Tops-1/modalgateway-Tops-1/redis-stable/src/acl.c:802-804 | the comparison of the bitmaps is equality |
| AclSelectorObject.SelectorObject.DescribeCommandRules | modalgateway-Tops-1/modalgateway-Tops-1/redis-stable/src/acl.c:760-813 | on any selector: it panics exactly if the text does not split, a word of it is refused, or the bitmaps differ; otherwise the result is +@all or -@all and the text |
| AclMeaning.CategoryWordMeans | modalgateway-Tops-1/modalgateway-Tops-1/redis-stable/src/acl.c:654-668 | +@c sets, and -@c clears, exactly the bits of the commands that have the category, of their subcommands, and of the subcommands that have it themselves; every other bit, the keys and the channels stay; an unknown category is refused |
| AclMeaning.CategoryWordFlushes | modalgateway-Tops-1/modalgateway-Tops-1/redis-stable/src/acl.c:654-668 | a category word flushes the first-args of exactly the commands and subcommands that have the category; the flag for all commands stays, but goes when -@c blocks something |
| AclMeaning.CategoryWordDecides | modalgateway-Tops-1/modalgateway-Tops-1/redis-stable/src/acl.c:708-716 | after +@c a command with the category is allowed, after -@c it is denied unless it needs no permission |
| AclMeaning.CommandWordMeans | modalgateway-Tops-1/modalgateway-Tops-1/redis-stable/src/acl.c:1129-1138 | +name sets, and -name clears, exactly the bits of the command and its subcommands, and its first-args are forgotten; an unknown name is refused |
| AclMeaning.CommandWordFlag | modalgateway-Tops-1/modalgateway-Tops-1/redis-stable/src/acl.c:560-572 | the flag for all commands goes exactly when -name clears some bit |
| AclMeaning.BlockedSubMeans | modalgateway-Tops-1/modalgateway-Tops-1/redis-stable/src/acl.c:1139-1191 | -container|sub clears exactly the bit of that subcommand |
| AclMeaning.AllowedSubMeans | modalgateway-Tops-1/modalgateway-Tops-1/redis-stable/src/acl.c:1139-1191 | +command|word, error by error: for a container the bit of one subcommand, else one more first-arg unless it is there in some case |
| AclMeaning.BarWordFlag | modalgateway-Tops-1/modalgateway-Tops-1/redis-stable/src/acl.c:560-572 | an allowed first-arg or subcommand leaves the flag for all commands, a blocked subcommand takes it away |
| AclMeaning.TwoBarsAreRefused | modalgateway-Tops-1/modalgateway-Tops-1/redis-stable/src/acl.c:1139-1191 | a word with more than one bar is refused |
| AclMeaning.AllCommandsMeans | modalgateway-Tops-1/modalgateway-Tops-1/redis-stable/src/acl.c:1054-1067 | all commands with the flag and all bits, or none, and no first-args and no rules |
| AclMeaning.RetainedLast | modalgateway-Tops-1/modalgateway-Tops-1/redis-stable/src/acl.c:620-628 | an accepted rule is retained last, in lower case, behind what is left of the earlier ones |
| AclMeaning.DroppedAre | modalgateway-Tops-1/modalgateway-Tops-1/redis-stable/src/acl.c:574-616 | what is left are exactly the rules for other names that do not extend the new one, in their order |
| AclMeaning.AllKeysAndChannelsMean | modalgateway-Tops-1/modalgateway-Tops-1/redis-stable/src/acl.c:1037-1053 | the words for all keys, no keys, all channels and no channels |
| AclMeaning.KeyWordMeans | modalgateway-Tops-1/modalgateway-Tops-1/redis-stable/src/acl.c:1068-1111 | a key pattern is granted once, with the permissions it was given together; it is refused when all keys are granted or it holds white space |
| AclMeaning.OtherPermissionsAreRefused | modalgateway-Tops-1/modalgateway-Tops-1/redis-stable/src/acl.c:1073-1094 | a word whose percent sign is followed by other letters, by one twice, or by none, is refused |
| AclMeaning.ChannelWordMeans | modalgateway-Tops-1/modalgateway-Tops-1/redis-stable/src/acl.c:1112-1128 | a channel pattern is added at the end unless it is there; it is refused when all channels are granted or it holds white space |
| AclDecision.KeyWordDecides | modalgateway-Tops-1/modalgateway-Tops-1/redis-stable/src/acl.c:1579-1611 | from the word to the check: after %R~p, %W~p or ~p a key is allowed exactly if it was before, or p matches it and grants, now or before, each permission its use needs |
| AclDecision.ChannelWordDecides | modalgateway-Tops-1/modalgateway-Tops-1/redis-stable/src/acl.c:1652-1669 | after &c a channel is allowed exactly if it was before, or c matches it; a pattern, if it is c |
| AclDecision.FirstArgDecides | modalgateway-Tops-1/modalgateway-Tops-1/redis-stable/src/acl.c:1694-1722 | after +command|word the command is allowed exactly if it was before, or its first argument is the word in some case |
| AclDecision.NewSelectorDecides | modalgateway-Tops-1/modalgateway-Tops-1/redis-stable/src/acl.c:348-366 | a new selector accepts only commands that need no permission, without keys and, unless that is the default, without channels |
| AclDecision.OneOfEachDecides | modalgateway-Tops-1/modalgateway-Tops-1/redis-stable/src/acl.c:1694-1762 | with all commands, one key pattern and one channel pattern, exactly the requests whose keys and checked channels they match are accepted |
| AclUserInvariant.NewUserIsValid | modalgateway-Tops-1/modalgateway-Tops-1/redis-stable/src/acl.c:423-448 | a new user is valid |
| AclUserInvariant.SetUserKeepsValid | modalgateway-Tops-1/modalgateway-Tops-1/redis-stable/src/acl.c:1284-1380 | every accepted modifier keeps a user valid: one root selector in front, distinct patterns, channels and passwords, exclusive flags, consistent rules |
| AclUserInvariant.ResetMakesNew | modalgateway-Tops-1/modalgateway-Tops-1/redis-stable/src/acl.c:1363-1372 | "reset" gives back a newly created user |
| AclUserMeaning.AddingMeans | modalgateway-Tops-1/modalgateway-Tops-1/redis-stable/src/acl.c:1307-1325 | after an accepted >p or #h the hash is the last password, or where it was; the others stay in order and nopass is off |
| AclUserMeaning.RemovingMeans | modalgateway-Tops-1/modalgateway-Tops-1/redis-stable/src/acl.c:1326-1344 | after an accepted <p or !h the hash is not among the passwords and every other one stays, in order; an unknown hash is refused |
| AclUserMeaning.FlagWordsMean | modalgateway-Tops-1/modalgateway-Tops-1/redis-stable/src/acl.c:1293-1306 | the six flag words set their flag and clear its opposite, and nopass and resetpass forget all passwords |
| AclUserMeaning.RootWordMeans | modalgateway-Tops-1/modalgateway-Tops-1/redis-stable/src/acl.c:1373-1378 | any other word goes to the root selector and changes nothing else |
| AclUserMeaning.SelectorWordsMean | modalgateway-Tops-1/modalgateway-Tops-1/redis-stable/src/acl.c:1345-1362 | a bracketed word appends the selector its words make; clearselectors keeps the root selector |
| AclDescribe.UserIsTokens | modalgateway-Tops-1/modalgateway-Tops-1/redis-stable/src/acl.c:858-903 | the description of a user is the join of its words |
| AclDescribe.SelectorIsTokens | modalgateway-Tops-1/modalgateway-Tops-1/redis-stable/src/acl.c:815-856 | the description of a selector is the join of its words |
| AclRoundTrip.DescriptionRebuildsUser | modalgateway-Tops-1/modalgateway-Tops-1/redis-stable/src/acl.c:2109-2160 | describing a user, splitting on spaces, merging parenthesised arguments and applying the words to a new user gives the same flags and passwords and equivalent selectors |
| AclRoundTrip.DescriptionIsStable | modalgateway-Tops-1/modalgateway-Tops-1/redis-stable/src/acl.c:858-903 | the rebuilt user has the same description |
| AclRoundTripLimit.RebuiltIffNoFullStar | modalgateway-Tops-1/modalgateway-Tops-1/redis-stable/src/acl.c:333-344 | for users whose words survive splitting, the round trip works if and only if no pattern list holds "*" with both permissions, which is printed as ~* |
| AclRoundTrip.SelectorTokensApply | modalgateway-Tops-1/modalgateway-Tops-1/redis-stable/src/acl.c:815-856 | the words of one selector rebuild it from a new one |
| AclRoundTrip.KeyTokensApply | modalgateway-Tops-1/modalgateway-Tops-1/redis-stable/src/acl.c:1068-1111 | the printed key patterns are added back one by one, in order |
| AclRoundTrip.ChannelTokensApply | modalgateway-Tops-1/modalgateway-Tops-1/redis-stable/src/acl.c:1112-1128 | the printed channels are added back in order |
| AclRoundTrip.RuleTextsApply | modalgateway-Tops-1/modalgateway-Tops-1/redis-stable/src/acl.c:1129-1206 | the printed rules, applied as words, are the replay |
| AclRoundTrip.FlagTokensApply | modalgateway-Tops-1/modalgateway-Tops-1/redis-stable/src/acl.c:1293-1306 | the printed flags are set back |
| AclRoundTrip.PasswordTokensApply | modalgateway-Tops-1/modalgateway-Tops-1/redis-stable/src/acl.c:1307-1325 | the printed password hashes are added back in order |
| AclMerge.MergeSelectorArguments | modalgateway-Tops-1/modalgateway-Tops-1/redis-stable/src/acl.c:2062-2102 | the loop merges as specified; on an unmatched parenthesis it reports where the selector starts |
| AclMerge.MergeFailsIff | modalgateway-Tops-1/modalgateway-Tops-1/redis-stable/src/acl.c:2051-2102 | merging fails if and only if some argument opens a selector that nothing behind it closes |
| AclRoundTrip.MergeToClose | modalgateway-Tops-1/modalgateway-Tops-1/redis-stable/src/acl.c:2062-2102 | merging takes the words from an opening parenthesis up to the first that closes |
| AclRoundTrip.MergeBrackets | modalgateway-Tops-1/modalgateway-Tops-1/redis-stable/src/acl.c:2062-2102 | merging a sequence of bracketed selectors gives one argument each |
| AclRoundTrip.WholesApply | modalgateway-Tops-1/modalgateway-Tops-1/redis-stable/src/acl.c:1345-1352 | each merged argument appends one equivalent selector |
| AclRoundTripLimit.FullStarIsLost | modalgateway-Tops-1/modalgateway-Tops-1/redis-stable/src/acl.c:333-344 | a selector with such a pattern never comes back equivalent |
| AclRoundTripLimit.RereadSelector | modalgateway-Tops-1/modalgateway-Tops-1/redis-stable/src/acl.c:2109-2160 | the k-th selector read back was made from the words of the k-th selector described |
| AclReachable.EveryCleanUserIsRebuiltIff | modalgateway-Tops-1/modalgateway-Tops-1/redis-stable/src/acl.c:2109-2160 | whatever modifiers without quotes and stray white space a new user was given: it is valid, describing it never aborts, and its description rebuilds it if and only if no pattern list holds "*" with both permissions |
| AclReachable.CleanModifierKeepsClean | modalgateway-Tops-1/modalgateway-Tops-1/redis-stable/src/acl.c:1284-1380 | each such modifier keeps the words of a user fit for splitting |
| AclReachable.FullStarIsStored | modalgateway-Tops-1/modalgateway-Tops-1/redis-stable/src/acl.c:1068-1111 | %RW~* stores the pattern "*" with both permissions |
| AclReachable.FullStarUserIsLost | modalgateway-Tops-1/modalgateway-Tops-1/redis-stable/src/acl.c:333-344 | a new user given %RW~* is valid and described without aborting, and does not come back from its description |
| AclReachable.OpenQuoteIsAccepted | modalgateway-Tops-1/modalgateway-Tops-1/redis-stable/src/acl.c:979-1000 | a bracketed selector with an unbalanced quote is no error: it adds a selector without permissions |
| AclCheck.CheckAllUserCommandPerm | modalgateway-Tops-1/modalgateway-Tops-1/redis-stable/src/acl.c:1853-1904 | with the quick path and the shared key cache: OK if and only if some selector alone accepts; else the greatest (error, index) over all selectors, index 0 for a command denial |
| AclCheck.SelectorCheckCmd | modalgateway-Tops-1/modalgateway-Tops-1/redis-stable/src/acl.c:1694-1762 | one selector answers the first thing it denies; the passed-in index is unchanged on a command denial; the cache stays what key extraction yields |
| AclCheck.CheckKey | modalgateway-Tops-1/modalgateway-Tops-1/redis-stable/src/acl.c:1579-1611 | a key is allowed if some pattern matches with the needed permissions |
| AclCheck.CheckChannel | modalgateway-Tops-1/modalgateway-Tops-1/redis-stable/src/acl.c:1652-1669 | patterns are compared literally, channels by matching |
| AclCheck.CheckCommand | modalgateway-Tops-1/modalgateway-Tops-1/redis-stable/src/acl.c:1694-1722 | the command part: flag, bit, no-auth or first-arg |
| AclCheck.AnswerIsUnique | modalgateway-Tops-1/modalgateway-Tops-1/redis-stable/src/acl.c:1694-1762 | a selector has one answer, and it is OK exactly when the selector accepts |
| AclCheck.OrderDoesNotMatter | modalgateway-Tops-1/modalgateway-Tops-1/redis-stable/src/acl.c:1853-1904 | the decision depends on the set of selectors only |
| AclCheck.OneMoreReported | modalgateway-Tops-1/modalgateway-Tops-1/redis-stable/src/acl.c:1885-1900 | the update of the reported error keeps the greatest denial although the local index may be stale |
| AclCheck.ConsistentSelectorFits | modalgateway-Tops-1/modalgateway-Tops-1/redis-stable/src/acl.c:1712-1722 | reading the argument behind a subcommand is never out of range |
| AclDecision.WhichDenial | modalgateway-Tops-1/modalgateway-Tops-1/redis-stable/src/acl.c:1885-1900 | when every selector denies: a channel is reported if some selector allows the command and all keys, else a key if some selector allows the command, else the command |
| AclPubsub.KillPubsubClientsIfNeeded | modalgateway-Tops-1/modalgateway-Tops-1/redis-stable/src/acl.c:2018-2044 | if all subscriptions were permitted before, exactly the clients of the user that hold one the new rules deny are closed; all others are untouched |
| AclPubsub.UpcomingChannelList | modalgateway-Tops-1/modalgateway-Tops-1/redis-stable/src/acl.c:1913-1966 | no list exactly if the new user allows every channel, or keeps, by address, every channel of a user without "all channels"; else all channels of the new user |
| AclPubsub.KeptKeepsPermissions | modalgateway-Tops-1/modalgateway-Tops-1/redis-stable/src/acl.c:1939-1963 | the early exit is safe |
| AclPubsub.DuplicatesAreNeverKept | modalgateway-Tops-1/modalgateway-Tops-1/redis-stable/src/acl.c:1950-1963 | with duplicated strings, and no match method on the list, the early exit is only taken for a user without channels |
| AclPubsub.ShouldKill | modalgateway-Tops-1/modalgateway-Tops-1/redis-stable/src/acl.c:1970-2014 | a client is killed exactly if one of its patterns, channels or shard channels is not granted |
| AclPubsub.AnyDenied | modalgateway-Tops-1/modalgateway-Tops-1/redis-stable/src/acl.c:1976-2006 | one scan finds a denied name if there is one |
| AclPubsub.ListDecides | modalgateway-Tops-1/modalgateway-Tops-1/redis-stable/src/acl.c:1826-1845 | without an "all channels" selector the concatenated list decides what the user permits |
| AclLog.EveryRunIsAccounted | modalgateway-Tops-1/modalgateway-Tops-1/redis-stable/src/acl.c:2693-2766 | after any run of denials and resets with a clock that does not go back: bounded, newest update first, distinct ids below the counter, and counts in the log plus dropped counts are the denials |
| AclLog.RecordKeepsValid | modalgateway-Tops-1/modalgateway-Tops-1/redis-stable/src/acl.c:2693-2766 | one denial keeps that, and its count is accounted for |
| AclLog.RecordMeans | modalgateway-Tops-1/modalgateway-Tops-1/redis-stable/src/acl.c:2693-2766 | the newest entry always tells of the denial; if one of the ten newest had the same reason, context, object and user at most a minute away, the first such entry moved there and counts one more, else it is new with the next id, and the oldest goes if there are too many |
| AclLog.NoLogKeepsNothing | modalgateway-Tops-1/modalgateway-Tops-1/redis-stable/src/acl.c:2693-2766 | with a maximum of zero nothing is kept |
| AclLog.GroupIndex | modalgateway-Tops-1/modalgateway-Tops-1/redis-stable/src/acl.c:2729-2744 | the entry a denial is grouped with is the first match among the newest ten |
| AclLog.MovedToHead | modalgateway-Tops-1/modalgateway-Tops-1/redis-stable/src/acl.c:2738-2754 | moving the grouped entry to the head keeps the others in order |
| AclLog.LogObject.Add | modalgateway-Tops-1/modalgateway-Tops-1/redis-stable/src/acl.c:2693-2766 | the list edited in place becomes the recorded log |
| AclLog.LogObject.TrimToMaxLen | modalgateway-Tops-1/modalgateway-Tops-1/redis-stable/src/acl.c:2669-2676 | trimming drops from the tail down to the maximum |
| BlockedServer.Server.constructor | modalgateway-Tops-1/modalgateway-Tops-1/redis-stable/src/blocked.c:61-72 | idle clients, nothing blocked: both sides of the index agree |
| BlockedServer.Server.BlockForKeys | modalgateway-Tops-1/modalgateway-Tops-1/redis-stable/src/blocked.c:388-439 | the client is appended, at a new node, to the waiter list of each distinct key and to no other; the two sides of the index, deletion counts and counters stay exact; its command will be run again unless it is a module that blocks |
| BlockedServer.Server.AddWaiter | modalgateway-Tops-1/modalgateway-Tops-1/redis-stable/src/blocked.c:399-431 | one key: node, table entry and deletion count together |
| BlockedServer.Server.BlockClient | modalgateway-Tops-1/modalgateway-Tops-1/redis-stable/src/blocked.c:74-87 | the counters of the type and, unless it is a module client, of all blocked clients |
| BlockedServer.Server.BlockWithoutKeys | modalgateway-Tops-1/modalgateway-Tops-1/redis-stable/src/blocked.c:621-660 | blocking for replicas, the append-only file, a pause or a shutdown keeps index, counters and queue exact |
| BlockedServer.Server.UnblockClient | modalgateway-Tops-1/modalgateway-Tops-1/redis-stable/src/blocked.c:184-215 | the client leaves every list it was in and nothing else changes there; counters exact; queued for reprocessing once |
| BlockedServer.Server.UnblockWaitingData | modalgateway-Tops-1/modalgateway-Tops-1/redis-stable/src/blocked.c:443-457 | the client is in no waiter list, and its table is empty |
| BlockedServer.Server.ReleaseBlockedEntry | modalgateway-Tops-1/modalgateway-Tops-1/redis-stable/src/blocked.c:536-569 | the stored node is the client in the list of the key; an emptied list and a zero deletion count are dropped |
| BlockedServer.Server.LeaveKey | modalgateway-Tops-1/modalgateway-Tops-1/redis-stable/src/blocked.c:536-569 | one key less on both sides |
| BlockedServer.Server.QueueForReprocessing | modalgateway-Tops-1/modalgateway-Tops-1/redis-stable/src/blocked.c:173-182 | queued unless queued already |
| BlockedServer.Server.SignalKeyAsReady | modalgateway-Tops-1/modalgateway-Tops-1/redis-stable/src/blocked.c:476-523 | the key becomes ready exactly if some client is blocked on the type of the value or as a module, and some client waits for the key, for its deletion if that is signalled; in particular whenever a client blocked for a list, sorted set or stream waits for the key and such a value is signalled, or a module waits; ready list and ready table agree without duplicates |
| BlockedServer.Server.UnblockClientOnKey | modalgateway-Tops-1/modalgateway-Tops-1/redis-stable/src/blocked.c:666-708 | the client leaves all its keys; its command is always run again, and it is blocked again as the command asks, or queued |
| BlockedServer.Server.Execute | modalgateway-Tops-1/modalgateway-Tops-1/redis-stable/src/blocked.c:694-694 | running a command again makes exactly those of the keys it signals ready that are awaited, or blocks the client again at the end of the lists, with the type and the keys it asks for |
| BlockedServer.Server.ServeReceiver | modalgateway-Tops-1/modalgateway-Tops-1/redis-stable/src/blocked.c:607-615 | a receiver is served exactly if the key holds a list and it waits for a list, and so for sorted sets and streams, or, of such a type, it wants to hear of deletions |
| BlockedServer.Server.ServeNext | modalgateway-Tops-1/modalgateway-Tops-1/redis-stable/src/blocked.c:597-616 | one round: the iterator moves to the next waiter of those queued at entry |
| BlockedServer.Server.HandleClientsBlockedOnKey | modalgateway-Tops-1/modalgateway-Tops-1/redis-stable/src/blocked.c:582-618 | exactly the clients queued at entry are examined, each once, in arrival order, whatever is appended meanwhile, and each is served exactly if it waits for what the key then holds; those not served stay in order in front of the new ones |
| BlockedServer.Server.ServeList | modalgateway-Tops-1/modalgateway-Tops-1/redis-stable/src/blocked.c:361-375 | the keys taken over are all served; without an unblocked client no key becomes ready |
| BlockedServer.Server.HandleClientsBlockedOnKeys | modalgateway-Tops-1/modalgateway-Tops-1/redis-stable/src/blocked.c:335-379 | the loop ends, with ready list and ready tables empty; a nested call does nothing |
| Blocked.QuickReturnsIff | modalgateway-Tops-1/modalgateway-Tops-1/redis-stable/src/blocked.c:476-509 | the quick returns are taken exactly if no client is blocked on such a type or as a module, or no client waits for this on the key |
| Blocked.SignalLostIff | modalgateway-Tops-1/modalgateway-Tops-1/redis-stable/src/blocked.c:476-509 | when the serving loop would serve a waiter of the key, a quick return loses the signal if and only if no client at all is blocked on the type of the value or as a module |
| Blocked.WhoMissesASignal | modalgateway-Tops-1/modalgateway-Tops-1/redis-stable/src/blocked.c:476-509 | only waiters of another type that want to hear of deletions miss a signal, unless nobody can block on the type of the value |
| Blocked.WaitedForIsHeard | modalgateway-Tops-1/modalgateway-Tops-1/redis-stable/src/blocked.c:459-467 | a waiter for a list, sorted set or stream is never missed by the quick returns when such a value is signalled |
| Blocked.GetsIsToServe | modalgateway-Tops-1/modalgateway-Tops-1/redis-stable/src/blocked.c:606-611 | the condition of the loop, by the types of value and of blocking |
| BlockedServer.StreamReaderMissesList | modalgateway-Tops-1/modalgateway-Tops-1/redis-stable/src/blocked.c:486-494 | a reader of a stream that wants to hear of deletions would be served, but its key does not become ready when it is signalled as a list |
| BlockedServer.ModuleMissesString | modalgateway-Tops-1/modalgateway-Tops-1/redis-stable/src/blocked.c:481-485 | nor does the key of a waiting module when a string is signalled |
| Blocked.BlockedIsValid | modalgateway-Tops-1/modalgateway-Tops-1/redis-stable/src/blocked.c:388-439 | blocking a client keeps every invariant |
| Blocked.FreedIsValid | modalgateway-Tops-1/modalgateway-Tops-1/redis-stable/src/blocked.c:184-215 | unblocking a client keeps every invariant |
| Blocked.OneKeyLessIsValid | modalgateway-Tops-1/modalgateway-Tops-1/redis-stable/src/blocked.c:536-569 | leaving one key keeps every invariant |
| Blocked.CountersUp | modalgateway-Tops-1/modalgateway-Tops-1/redis-stable/src/blocked.c:74-87 | the counters are the sizes of the sets of blocked clients |
| Blocked.CountersDown | modalgateway-Tops-1/modalgateway-Tops-1/redis-stable/src/blocked.c:184-215 | and stay so when a client is unblocked |
| Blocked.WithoutIsRemoved | modalgateway-Tops-1/modalgateway-Tops-1/redis-stable/src/blocked.c:536-569 | unlinking the stored node removes all of the client from the list |
| Blocked.ReadyRemove | modalgateway-Tops-1/modalgateway-Tops-1/redis-stable/src/blocked.c:365-374 | taking a key off the list and out of the table keeps them in agreement |
| Blocked.ExaminingStep | modalgateway-Tops-1/modalgateway-Tops-1/redis-stable/src/blocked.c:589-617 | examining one waiter keeps the pass where it should stand |
| Blocked.PassServes | modalgateway-Tops-1/modalgateway-Tops-1/redis-stable/src/blocked.c:589-617 | a served waiter leaves the list, and comes back only behind all that were queued at entry |
| BlockedIndex.AppendKeepsIndex | modalgateway-Tops-1/modalgateway-Tops-1/redis-stable/src/blocked.c:399-418 | appending keeps: key in the client's table exactly if the client is once in the list, at the stored node |
| BlockedIndex.AppendKeepsNokey | modalgateway-Tops-1/modalgateway-Tops-1/redis-stable/src/blocked.c:422-430 | appending keeps the deletion counts exact |
| BlockedIndex.RemoveKeepsIndex | modalgateway-Tops-1/modalgateway-Tops-1/redis-stable/src/blocked.c:536-569 | removing keeps the index |
| BlockedIndex.RemoveKeepsNokey | modalgateway-Tops-1/modalgateway-Tops-1/redis-stable/src/blocked.c:555-566 | removing keeps the deletion counts exact, with no zero kept |
| BioRuns.EveryStateIsOk | modalgateway-Tops-1/modalgateway-Tops-1/redis-stable/src/bio.c:281-368 | the invariant of the protocol holds in every state of every run |
| BioRuns.NoCompletionIsForgotten | modalgateway-Tops-1/modalgateway-Tops-1/redis-stable/src/bio.c:416-445 | a nonempty completion list is always announced: a byte in the pipe, a worker between append and write, or the main thread between draining and taking |
| BioRuns.EachOnceAndNotTooEarly | modalgateway-Tops-1/modalgateway-Tops-1/redis-stable/src/bio.c:281-368 | each callback that ran was requested, ran once, in order per worker, and only after every earlier job of its worker took effect |
| BioOrder.CallbackComesLast | modalgateway-Tops-1/modalgateway-Tops-1/redis-stable/src/bio.c:59-67 | when the callback of a lazy-free completion request has run, every lazy free requested before it was carried out; so for closed files, and for syncs and closed append-only files |
| BioOrder.AssignedComesLast | modalgateway-Tops-1/modalgateway-Tops-1/redis-stable/src/bio.c:206-227 | the same for a request created for one of the named workers |
| BioOrder.CarriedOutInOrder | modalgateway-Tops-1/modalgateway-Tops-1/redis-stable/src/bio.c:59-67 | jobs of kinds that share a worker are carried out in the order of their requests |
| BioOrder.EveryRequestIsAnswered | modalgateway-Tops-1/modalgateway-Tops-1/redis-stable/src/bio.c:281-368 | at the end of a run every requested job was carried out, and exactly the completion requests were called back |
| BioOrder.DrainWaitsForKind | modalgateway-Tops-1/modalgateway-Tops-1/redis-stable/src/bio.c:383-391 | bioDrainWorker for a kind returns only when every job of that kind requested until then was carried out, and none is counted as pending |
| BioOrder.TakesWhenPipeIsEmpty | modalgateway-Tops-1/modalgateway-Tops-1/redis-stable/src/bio.c:416-432 | the main thread reads until the pipe is empty, and only then takes the completions |
| BioRuns.EveryCompletionIsRun | modalgateway-Tops-1/modalgateway-Tops-1/redis-stable/src/bio.c:416-445 | when requests stop, the run ends within a computed number of steps and every completion request has been called back |
| BioRuns.StuckMeansFinished | modalgateway-Tops-1/modalgateway-Tops-1/redis-stable/src/bio.c:281-391 | no deadlock: when no thread can step, all queues are empty, nobody waits and every completion ran |
| BioRuns.DrainedMeansDone | modalgateway-Tops-1/modalgateway-Tops-1/redis-stable/src/bio.c:383-391 | when bioDrainWorker returns, every job ever submitted to that worker is processed and removed |
| BioRuns.PendingIsExact | modalgateway-Tops-1/modalgateway-Tops-1/redis-stable/src/bio.c:372-380 | the pending count of a type is the number of its jobs not yet removed |
| BioRuns.InternalStepsDecrease | modalgateway-Tops-1/modalgateway-Tops-1/redis-stable/src/bio.c:281-368 | every step of a thread on its own uses up some of the work left |
| BioRuns.RunsComeToRest | modalgateway-Tops-1/modalgateway-Tops-1/redis-stable/src/bio.c:281-368 | so runs without requests are bounded |
| BioRuns.HandedOverRises | modalgateway-Tops-1/modalgateway-Tops-1/redis-stable/src/bio.c:341-352 | the completions of one worker are handed over in the order of their requests |
| BioSafety.StepKeeps | modalgateway-Tops-1/modalgateway-Tops-1/redis-stable/src/bio.c:181-189 | every step keeps the invariant |
| BioSafety.SubmitKeeps | modalgateway-Tops-1/modalgateway-Tops-1/redis-stable/src/bio.c:181-189 | submission: queue, counter and exactly one wake-up |
| BioSafety.FinishKeeps | modalgateway-Tops-1/modalgateway-Tops-1/redis-stable/src/bio.c:359-368 | a finished job leaves the queue only now; the drainer is woken |
| BioSafety.WorkKeeps | modalgateway-Tops-1/modalgateway-Tops-1/redis-stable/src/bio.c:341-352 | a completion request is appended once, when its job is executed |
| BioSafety.WriteKeeps | modalgateway-Tops-1/modalgateway-Tops-1/redis-stable/src/bio.c:354-356 | a write that fails for a full pipe leaves the list announced |
| BioSafety.LookKeeps | modalgateway-Tops-1/modalgateway-Tops-1/redis-stable/src/bio.c:281-294 | a worker sleeps only on an empty queue |
| BioSafety.ReaderKeeps | modalgateway-Tops-1/modalgateway-Tops-1/redis-stable/src/bio.c:416-445 | draining the pipe before taking the list loses nothing |
| BioSafety.DrainKeeps | modalgateway-Tops-1/modalgateway-Tops-1/redis-stable/src/bio.c:383-391 | the drainer sleeps only on a nonempty queue, sharing the condition with the worker |
| BioSafety.InitialIsOk | modalgateway-Tops-1/modalgateway-Tops-1/redis-stable/src/bio.c:125-179 | the start |
| Bio.CompTypeFor | modalgateway-Tops-1/modalgateway-Tops-1/redis-stable/src/bio.c:206-227 | a completion request goes to the assigned worker, and only to an existing one |
| AeTimers.EventLoop.ProcessTimeEvents | modalgateway-Tops-1/modalgateway-Tops-1/redis-stable/src/ae.c:279-343 | every timer in the list at the start is reached once, newest first, or was freed before; the callbacks called are exactly those of the timers live and due when reached; a timer deleted by a callback or finalizer before it is reached is found deleted; the time is read again after each of them; timers running in outer passes are not freed; no freed timer is gone on from if no finalizer starts a pass |
| AeTimers.FiredOnceAndOld | modalgateway-Tops-1/modalgateway-Tops-1/redis-stable/src/ae.c:279-343 | a pass fires no timer twice, none created during it, none deleted before it; it frees every deleted timer whose callback is not running |
| AeTimers.DeletedBeforeReached | modalgateway-Tops-1/modalgateway-Tops-1/redis-stable/src/ae.c:287-341 | a timer that a callback or finalizer of the pass deletes before it is reached does not fire |
| AeTimers.PlainPassFires | modalgateway-Tops-1/modalgateway-Tops-1/redis-stable/src/ae.c:279-343 | a pass that nests no other reaches every timer there was, and fires it exactly if it was not deleted, before or during the pass, and was due at the time last read |
| AeTimers.NewerDeletesOlder | modalgateway-Tops-1/modalgateway-Tops-1/redis-stable/src/ae.c:291-313 | of two due timers the newer deletes the older: only the newer fires, and the older is freed in the same pass |
| AeTimers.EventLoop.RunAction | modalgateway-Tops-1/modalgateway-Tops-1/redis-stable/src/ae.c:218-252 | one action of a callback: adding puts a timer with the next id and its due time in the list, deleting marks the timer with the id, and nothing else changes |
| AeTimers.EventLoop.RunActions | modalgateway-Tops-1/modalgateway-Tops-1/redis-stable/src/ae.c:218-252 | actions one after the other: what they delete is gone or marked, and without nested passes they do exactly what they say |
| AeTimers.EventLoop.UsUntilEarliestTimer | modalgateway-Tops-1/modalgateway-Tops-1/redis-stable/src/ae.c:263-276 | the time until the first live timer is due, not below zero, and -1 without timers; a null pointer is read if and only if there are timers and all of them are marked deleted |
| AeTimers.OnlyTimerDeleted | modalgateway-Tops-1/modalgateway-Tops-1/redis-stable/src/ae.c:241-276 | with its only timer marked deleted, the loop reads that null pointer |
| AeTimerEffects.AddActs | modalgateway-Tops-1/modalgateway-Tops-1/redis-stable/src/ae.c:218-239 | a new timer changes no other, and is due so long after the reading of the clock |
| AeTimerEffects.DeleteActs | modalgateway-Tops-1/modalgateway-Tops-1/redis-stable/src/ae.c:241-252 | marking the first timer with an id deletes exactly the timer with that number |
| AeTimers.EventLoop.Reach | modalgateway-Tops-1/modalgateway-Tops-1/redis-stable/src/ae.c:287-341 | one round: the timer found, whether it is fired or freed, and the nearest older timer next; if this timer and the next are deleted and not running, the saved pointer dangles if and only if the finalizer starts a pass |
| AeTimers.EventLoop.Fire | modalgateway-Tops-1/modalgateway-Tops-1/redis-stable/src/ae.c:325-339 | the callback runs once with a reference held; then the timer is due again after the returned delay, or deleted |
| AeTimers.EventLoop.CallBack | modalgateway-Tops-1/modalgateway-Tops-1/redis-stable/src/ae.c:328-331 | whatever the callback does, nested passes included, the timer is still in the list afterwards, and the timers it deletes are gone or marked; without nested passes it does exactly what its actions say, the timers it adds having the next ids and their due times |
| AeTimers.EventLoop.Free | modalgateway-Tops-1/modalgateway-Tops-1/redis-stable/src/ae.c:291-313 | a deleted timer is unlinked and finalized once, and only without references; what its finalizer deletes is gone or marked, and without nested passes the other timers are as its actions say |
| AeTimers.EventLoop.CreateTimeEvent | modalgateway-Tops-1/modalgateway-Tops-1/redis-stable/src/ae.c:218-239 | a new timer goes to the head, with a new id |
| AeTimers.EventLoop.DeleteTimeEvent | modalgateway-Tops-1/modalgateway-Tops-1/redis-stable/src/ae.c:241-252 | the first timer with the id is marked and stays in the list; an unknown id changes nothing |
| AeTimers.SavedNextIsNearest | modalgateway-Tops-1/modalgateway-Tops-1/redis-stable/src/ae.c:291-313 | the successor saved before the finalizer runs is the nearest older timer after it if and only if it is still in the list, and it is if the finalizer freed nothing |
| AeTimers.FinalizerStartsPass | modalgateway-Tops-1/modalgateway-Tops-1/redis-stable/src/ae.c:291-313 | a pass over two deleted timers, in any environment whose finalizers all do the given actions, follows a pointer to a freed timer if and only if the actions start a pass |
| AeTimers.PassFreesIff | modalgateway-Tops-1/modalgateway-Tops-1/redis-stable/src/ae.c:291-313 | a pass that nests no other frees a timer exactly if it finds it deleted and no callback of it is running |
| AeTimers.PassStep | modalgateway-Tops-1/modalgateway-Tops-1/redis-stable/src/ae.c:287-341 | one timer further, nothing is skipped |
| AeTimerList.FreeKeeps | modalgateway-Tops-1/modalgateway-Tops-1/redis-stable/src/ae.c:291-313 | each timer ever created is in the list or finalized, once; freeing keeps that |
| AeTimerList.PushKeeps | modalgateway-Tops-1/modalgateway-Tops-1/redis-stable/src/ae.c:328-330 | reference counts are the numbers of running callbacks |
| AeTimerList.PopKeeps | modalgateway-Tops-1/modalgateway-Tops-1/redis-stable/src/ae.c:330-331 | and stay so when a callback returns |
| AeTimerList.NewKeeps | modalgateway-Tops-1/modalgateway-Tops-1/redis-stable/src/ae.c:218-239 | creating keeps the list ordered newest first |
| AeTimerList.NextSkipsNothing | modalgateway-Tops-1/modalgateway-Tops-1/redis-stable/src/ae.c:287-341 | te->next is the nearest older timer |
| AeEvport.EventLoop.constructor | modalgateway-Tops-1/modalgateway-Tops-1/redis-stable/src/ae.c:47-72 | nothing registered, associated or pending |
| AeEvport.EventLoop.CreateFileEvent | modalgateway-Tops-1/modalgateway-Tops-1/redis-stable/src/ae.c:145-179 | the registered mask grows by the new one, or nothing changes on an error; the arrays grow as needed |
| AeEvport.EventLoop.DeleteFileEvent | modalgateway-Tops-1/modalgateway-Tops-1/redis-stable/src/ae.c:181-201 | the mask shrinks, the barrier with the writable event; the greatest descriptor is found again; the events array is read in bounds if and only if the descriptor is below its length or not below the set size |
| AeEvport.ClosesOutOfBounds | modalgateway-Tops-1/modalgateway-Tops-1/redis-stable/src/socket.c:117-121 | closing a connection on a descriptor that was never registered reads behind a new events array |
| AeEvport.DeleteAfterCreate | modalgateway-Tops-1/modalgateway-Tops-1/redis-stable/src/ae.c:145-201 | once registering a descriptor was tried, deleting its events stays in bounds |
| AeEvport.EventLoop.LowerMax | modalgateway-Tops-1/modalgateway-Tops-1/redis-stable/src/ae.c:193-200 | the search ends at the greatest registered descriptor, or -1 |
| AeEvport.EventLoop.Grow | modalgateway-Tops-1/modalgateway-Tops-1/redis-stable/src/ae.c:155-166 | growing the arrays keeps what is registered |
| AeEvport.EventLoop.AddEvent | modalgateway-Tops-1/modalgateway-Tops-1/redis-stable/src/ae_evport.c:154-183 | a pending descriptor only changes its pending mask, another one is associated with the union |
| AeEvport.EventLoop.DelEvent | modalgateway-Tops-1/modalgateway-Tops-1/redis-stable/src/ae_evport.c:185-245 | a pending descriptor is updated or forgotten, another one re-associated or dissociated; dissociating never fails for want of an association |
| AeEvport.RemovalMeans | modalgateway-Tops-1/modalgateway-Tops-1/redis-stable/src/ae.c:181-201 | readable and writable events go exactly if they are removed; the barrier also when the writable event is |
| AeEvport.EventLoop.LookupPending | modalgateway-Tops-1/modalgateway-Tops-1/redis-stable/src/ae_evport.c:111-120 | finds a pending descriptor if there is one |
| AeEvport.EventLoop.Poll | modalgateway-Tops-1/modalgateway-Tops-1/redis-stable/src/ae_evport.c:247-319 | every registered descriptor is associated, with its mask, before events are fetched; afterwards exactly the registered ones not reported are; each report is fired as readable or writable as the kernel says, and its descriptor is pending; the fired array is never overrun |
| AeEvport.EventLoop.Reassociate | modalgateway-Tops-1/modalgateway-Tops-1/redis-stable/src/ae_evport.c:259-274 | nothing is pending afterwards |
| AeEvport.ExactlyOne | modalgateway-Tops-1/modalgateway-Tops-1/redis-stable/src/ae_evport.c:48-63 | every registered descriptor is associated or pending, never both, with exactly its mask; no other one is |
| AeEvport.AssociateKeeps | modalgateway-Tops-1/modalgateway-Tops-1/redis-stable/src/ae_evport.c:182-182 | associating keeps that |
| AeEvport.PendingKeeps | modalgateway-Tops-1/modalgateway-Tops-1/redis-stable/src/ae_evport.c:169-180 | changing a pending mask keeps that |
| AeEvport.ForgetKeeps | modalgateway-Tops-1/modalgateway-Tops-1/redis-stable/src/ae_evport.c:203-208 | forgetting a pending descriptor keeps that |
| AeEvport.ReassociateKeeps | modalgateway-Tops-1/modalgateway-Tops-1/redis-stable/src/ae_evport.c:259-272 | re-associating one keeps that |
| AeEvport.FetchKeeps | modalgateway-Tops-1/modalgateway-Tops-1/redis-stable/src/ae_evport.c:298-316 | what a fetch takes off the port becomes pending |
| AeEvport.Fits | modalgateway-Tops-1/modalgateway-Tops-1/redis-stable/src/ae_evport.c:300-308 | a batch of distinct registered descriptors fits the fired array |
| AeKqueue.ApiState.Merge | modalgateway-Tops-1/modalgateway-Tops-1/redis-stable/src/ae_kqueue.c:139-173 | the fired array gets the merged batch, and the packed masks are all zero again |
| AeKqueue.EachOnceInOrder | modalgateway-Tops-1/modalgateway-Tops-1/redis-stable/src/ae_kqueue.c:142-173 | each descriptor with a read or write event is reported once, in order of first occurrence, with the union of its events |
| AeKqueue.UnionMeans | modalgateway-Tops-1/modalgateway-Tops-1/redis-stable/src/ae_kqueue.c:149-157 | the union has a bit exactly if the batch has such an event for the descriptor |
| AeKqueue.AddDoesNotInterfere | modalgateway-Tops-1/modalgateway-Tops-1/redis-stable/src/ae_kqueue.c:46-56 | adding a mask changes no other descriptor in the byte |
| AeKqueue.ResetDoesNotInterfere | modalgateway-Tops-1/modalgateway-Tops-1/redis-stable/src/ae_kqueue.c:58-60 | resetting a mask changes no other descriptor in the byte |
| AeKqueue.ApiState.GetEventMask | modalgateway-Tops-1/modalgateway-Tops-1/redis-stable/src/ae_kqueue.c:50-52 | reads the mask of one descriptor |
| AeKqueue.ApiState.AddEventMask | modalgateway-Tops-1/modalgateway-Tops-1/redis-stable/src/ae_kqueue.c:54-56 | only the mask of the descriptor grows |
| AeKqueue.ApiState.ResetEventMask | modalgateway-Tops-1/modalgateway-Tops-1/redis-stable/src/ae_kqueue.c:58-60 | only the mask of the descriptor becomes zero |
| AeKqueue.ApiState.AddAll | modalgateway-Tops-1/modalgateway-Tops-1/redis-stable/src/ae_kqueue.c:149-157 | the first pass stores the union of each descriptor |
| AeKqueue.NoMaskMeansZero | modalgateway-Tops-1/modalgateway-Tops-1/redis-stable/src/ae_kqueue.c:159-173 | no mask left means all bytes are zero |
| AeKqueue.MergedFits | modalgateway-Tops-1/modalgateway-Tops-1/redis-stable/src/ae_kqueue.c:167-171 | the merged events fit an array every descriptor fits |
| AdList.List.LinkNodeHead | modalgateway-Tops-1/modalgateway-Tops-1/redis-stable/src/adlist.c:90-101 | the node comes first |
| AdList.List.LinkNodeTail | modalgateway-Tops-1/modalgateway-Tops-1/redis-stable/src/adlist.c:123-134 | the node comes last |
| AdList.List.AddNodeHead | modalgateway-Tops-1/modalgateway-Tops-1/redis-stable/src/adlist.c:76-85 | a new node with the value comes first |
| AdList.List.AddNodeTail | modalgateway-Tops-1/modalgateway-Tops-1/redis-stable/src/adlist.c:109-118 | a new node with the value comes last |
| AdList.List.InsertNode | modalgateway-Tops-1/modalgateway-Tops-1/redis-stable/src/adlist.c:136-163 | a new node before or after the given one |
| AdList.List.UnlinkNode | modalgateway-Tops-1/modalgateway-Tops-1/redis-stable/src/adlist.c:179-193 | the node is taken out, its links are null |
| AdList.List.DelNode | modalgateway-Tops-1/modalgateway-Tops-1/redis-stable/src/adlist.c:169-174 | and its value given to the free callback |
| AdList.List.Empty | modalgateway-Tops-1/modalgateway-Tops-1/redis-stable/src/adlist.c:37-52 | nothing is left, every value freed once and in order |
| AdList.List.RotateTailToHead | modalgateway-Tops-1/modalgateway-Tops-1/redis-stable/src/adlist.c:339-351 | the last node moves to the front |
| AdList.List.RotateHeadToTail | modalgateway-Tops-1/modalgateway-Tops-1/redis-stable/src/adlist.c:354-366 | the first node moves to the end |
| AdList.RotationsAreInverse | modalgateway-Tops-1/modalgateway-Tops-1/redis-stable/src/adlist.c:339-366 | the rotations undo each other |
| AdList.List.Join | modalgateway-Tops-1/modalgateway-Tops-1/redis-stable/src/adlist.c:370-386 | the nodes of the other list follow, and the other list is empty and valid |
| AdList.List.Index | modalgateway-Tops-1/modalgateway-Tops-1/redis-stable/src/adlist.c:324-336 | positive from the head, negative from the tail, null out of range |
| AdList.List.SearchKey | modalgateway-Tops-1/modalgateway-Tops-1/redis-stable/src/adlist.c:299-317 | the first matching node from the head, or null if none matches |
| AdList.List.Dup | modalgateway-Tops-1/modalgateway-Tops-1/redis-stable/src/adlist.c:254-288 | the copied values in order in a new list; if the dup callback fails for a value, none, and the copies so far are freed |
| AdList.List.AddCopy | modalgateway-Tops-1/modalgateway-Tops-1/redis-stable/src/adlist.c:266-286 | one value copied and appended, or the copy released |
| AdList.Next | modalgateway-Tops-1/modalgateway-Tops-1/redis-stable/src/adlist.c:233-244 | the current node, and the iterator one further |
| AdList.Sweep | modalgateway-Tops-1/modalgateway-Tops-1/redis-stable/src/adlist.c:219-244 | iterating in either direction while deleting any of the nodes just returned visits every original node once, in order, and keeps the others in order |
| AdList.SweepStep | modalgateway-Tops-1/modalgateway-Tops-1/redis-stable/src/adlist.c:219-244 | one visit, with or without deletion |
| AdList.ChainWithout | modalgateway-Tops-1/modalgateway-Tops-1/redis-stable/src/adlist.c:179-193 | links that lead around a node are those of the list without it |
| AdList.ChainInserted | modalgateway-Tops-1/modalgateway-Tops-1/redis-stable/src/adlist.c:136-163 | links that lead through a node are those of the list with it |
| AdList.ChainJoined | modalgateway-Tops-1/modalgateway-Tops-1/redis-stable/src/adlist.c:370-386 | links across two lists are those of their concatenation |
| BusinessHours.CalculateDue | talentops-ottobon/Talent Ops/lib/businessHoursUtils.js:89-160 | the due instant is the least one by which exactly the allocated business minutes have passed; without allocated time it is the end of work of that day |
| BusinessHours.CalculateElapsed | talentops-ottobon/Talent Ops/lib/businessHoursUtils.js:165-198 | the loop over days computes the number of business minutes in the interval |
| BusinessHours.ElapsedOfDue | talentops-ottobon/Talent Ops/lib/businessHoursUtils.js:89-198 | elapsed(start, due(start, h)) is h, and the due instant is in a work period or at its end |
| BusinessHours.DueOfElapsed | talentops-ottobon/Talent Ops/lib/businessHoursUtils.js:89-198 | due(start, elapsed(start, e)) is e exactly if the minute before e is a business minute (or e is the end of the start day with nothing elapsed) |
| BusinessHours.CountAdds | talentops-ottobon/Talent Ops/lib/businessHoursUtils.js:165-198 | elapsed time is additive over adjacent intervals |
| BusinessHours.WeekCounts | talentops-ottobon/Talent Ops/lib/businessHoursUtils.js:89-198 | any week, whenever it starts, has the work hours of five days, or of seven if weekends are not excluded |
| BusinessHours.DueAWeekLater | talentops-ottobon/Talent Ops/lib/businessHoursUtils.js:89-160 | with the hours of a week more, work is due a week later |
| BusinessHours.MinuteOfWeek | talentops-ottobon/Talent Ops/lib/businessHoursUtils.js:35-60 | business minutes are those between start and end of work on Monday to Friday, or on any day |
| BusinessHours.DueByLastMinute | talentops-ottobon/Talent Ops/lib/businessHoursUtils.js:89-160 | least instant, and last needed minute is a business minute: the same thing |
| BusinessHours.DueIsUnique | talentops-ottobon/Talent Ops/lib/businessHoursUtils.js:89-160 | there is one due instant |
| BusinessHours.GetNextBusinessDayStart | talentops-ottobon/Talent Ops/lib/businessHoursUtils.js:65-79 | the start of work of the first work day after the given day |
| BusinessHours.MoveToWork | talentops-ottobon/Talent Ops/lib/businessHoursUtils.js:108-126 | counting starts at a business minute, with none skipped |
| BusinessHours.DayPiece | talentops-ottobon/Talent Ops/lib/businessHoursUtils.js:175-195 | one round of the elapsed loop counts the business minutes up to the next round |
| BusinessHours.DayPasses | talentops-ottobon/Talent Ops/lib/businessHoursUtils.js:136-147 | one more work day used up |
| TokenBucket.TokenBucketRateLimiter.Consume | modalgateway-Tops-1/modalgateway-Tops-1/unified_server.py:104-141 | one request: granted if the refilled level suffices; a denied request writes nothing; other keys are untouched |
| TokenBucket.StoredLevelInRange | modalgateway-Tops-1/modalgateway-Tops-1/unified_server.py:118-133 | the stored level is between zero and the capacity |
| TokenBucket.GrantsAreBounded | modalgateway-Tops-1/modalgateway-Tops-1/unified_server.py:118-139 | with a clock that does not go back, tokens granted in any window are at most capacity + rate * length of the window |
| TokenBucket.GrantedIffFits | modalgateway-Tops-1/modalgateway-Tops-1/unified_server.py:118-139 | a request is granted if and only if it keeps every window of time that ends with it within capacity + rate * length, so nothing is refused that the bound would allow |
| TokenBucket.BoundHoldsIff | modalgateway-Tops-1/modalgateway-Tops-1/unified_server.py:118-139 | with the 60 second expiry the bound holds in every run if and only if 60 * rate >= capacity |
| TokenBucket.ExpiryHarmlessIff | modalgateway-Tops-1/modalgateway-Tops-1/unified_server.py:132-135 | the expiry changes no decision of any run if and only if 60 * rate >= capacity |
| TokenBucket.TooSoonDiffers | modalgateway-Tops-1/modalgateway-Tops-1/unified_server.py:132-135 | a run of two requests that is decided differently otherwise |
| TokenBucket.ConfiguredIsHarmless | modalgateway-Tops-1/modalgateway-Tops-1/unified_server.py:233-233 | the configured capacity and rate satisfy the condition |
| TokenBucket.WindowPotential | modalgateway-Tops-1/modalgateway-Tops-1/unified_server.py:118-139 | granted so far plus the level never exceed the bound |
| ChildInfo.Parent.DeliveredIsPrefixOfSent | modalgateway-Tops-1/modalgateway-Tops-1/redis-stable/src/childinfo.c:123-163 | the records delivered are a prefix of those sent, all of them when the pipe is empty; less than a record is held back |
| ChildInfo.Parent.ReadChildInfo | modalgateway-Tops-1/modalgateway-Tops-1/redis-stable/src/childinfo.c:123-147 | one read, however short, keeps: delivered records and buffered tail are the bytes read |
| ChildInfo.Parent.ReceiveChildInfo | modalgateway-Tops-1/modalgateway-Tops-1/redis-stable/src/childinfo.c:150-163 | the loop delivers every completed record |
| ChildInfo.Parent.Send | modalgateway-Tops-1/modalgateway-Tops-1/redis-stable/src/childinfo.c:88-98 | a record is appended to the stream |
| ChildInfo.MoreBytes | modalgateway-Tops-1/modalgateway-Tops-1/redis-stable/src/childinfo.c:128-146 | bytes added behind the tail complete a record, or extend the tail |
| ChildInfo.NothingIsLost | modalgateway-Tops-1/modalgateway-Tops-1/redis-stable/src/childinfo.c:123-147 | records and tail are all of the bytes |
| ChildInfo.PrefixOfRecords | modalgateway-Tops-1/modalgateway-Tops-1/redis-stable/src/childinfo.c:123-163 | any prefix of what was sent holds the first records sent |

## Left out

- The bitmap is an array of booleans, not packed in 64-bit words; the first-args array is a map from ids to lists, so
  reads of it beyond the bitmap are not modelled.
- AclRoundTrip.DescriptionRebuildsUser: words that do not survive splitting, and bracketed words that end in ")" early,
  are excluded; AclStoredRules says when rule words do. The description is split on single spaces, as an ACL file is.
- AclRoundTripLimit.RebuiltIffNoFullStar: the same words are excluded.
- AclMerge.MergeSelectorArguments: an argument with a NUL inside, which is cut there when it is appended to a selector.
- AclReplay.EverySelectorReplays: the list of rules is replayed; AclStoredRules.EveryCleanRunIsSane is about the text.
- Users and their selector lists are values, as are clients in `BlockedServer`; aliasing between heap objects is not
  captured there. The cached description string of a user is left out.
- Deprecation logging, SHA-256 of cleartext passwords, loading and saving of ACL files, authentication, reply texts.
- The recomputation of all users when modules load or unload, but for one selector with the command table unchanged.
- ACLUserCheckCmdWithUnrestrictedKeyAccess and ACLUserCheckKeyPerm: they would only repeat parts of the check.
- BlockedServer.Server.BlockForKeys: the timeout of the client, and the table of timeouts.
- BlockedServer.Server.BlockWithoutKeys: the lists of clients that wait for replicas or are postponed.
- BlockedServer.Server.UnblockClient: the clean-up specific to WAIT, WAITAOF, modules and postponed clients, which touches
  none of the modelled state.
- BlockedServer.Server.ServeReceiver: a module client that matches stays in the list, as it does in the source until the
  module's own queue is handled; what the callback of the module does is not modelled.
- BlockedServer.Server.Execute: a command that is run again changes only its own client and the ready keys.
- BlockedServer.Server.HandleClientsBlockedOnKeys: a command that blocks again is assumed to signal no key and to block
  on a list, sorted set or stream.
- BioRuns.EveryCompletionIsRun: one thread drains at a time; a write to the pipe fails only when it is full; what a job
  does beside its completion (closing, syncing, freeing) has no effect on the protocol.
- AeTimers.EventLoop.ProcessTimeEvents: the list is a sequence and not linked nodes, which `AdList` covers; passes nest
  to a finite depth. A pass that follows a pointer to a freed timer stops there.
- AeEvport.EventLoop.DelEvent: a refusal of the kernel to re-associate or dissociate ends the process and is not
  modelled.
- AeEvport.EventLoop.Poll: a re-association or a fetch that fails ends the process or the poll, and is not modelled.
- AeEvport.EventLoop.DeleteFileEvent: what a read out of bounds finds; `aeGetFileClientData` and `aeGetFileEvents`, which
  read in the same way; `aeResizeSetSize`.
- AeKqueue.ApiState.Merge: the signedness of char and the kernel calls.
- Failing memory allocation, integer widths of lengths and counters, `listIndex` of the least long.
- BusinessHours.CalculateDue: whole minutes on one clock, work starting before it ends on the same day; time zones,
  daylight saving, fractions of a minute and the formatting of dates are left out.
- TokenBucket.TokenBucketRateLimiter.Consume: real numbers instead of floating point, requests that are not negative,
  one clock for caller and store, and no fail-open branch.
- ChildInfo.Parent.ReadChildInfo: the fields inside a record and the statistics they update.
- `anet.c`, `ae_epoll.c`, `ae_select.c`, the HTTP handlers, the language-model and database code and the front end:
  no algorithmic state of their own.
