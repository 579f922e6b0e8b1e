# telewrapper, modelled in Dafny

`telewrapper` runs a shell command and, when it ends, sends a Telegram message
saying whether the command failed and how long it took. The recipients are
aliases resolved through a JSON configuration file. A `configure` command
fills that file by polling the bot: users send `/subscribe <name>` to register
their user id under a name, and `/end` finishes. An `install` command writes
a small `telewrap` launcher script with a fixed alias list and configuration path.

This project models the deterministic logic inside that script as pure
functions over maps and sequences, and proves what they promise:

- `Text` (text.dfy): Python's `str.split(" ")` and `" ".join(...)` on one
  separator character, and the decimal rendering of an elapsed-seconds count.
  Also their inverses, with round-trip lemmas.
- `ConfigFile` (config.dfy): configuration values, `config.get(key, None)`,
  and the merge at the end of `configure`.
- `Resolution` (resolution.dfy): the dict comprehension and the list
  comprehension in `wrap` that turn requested aliases into recipient ids,
  including the `zip(*...)` unpacking that raises when nothing resolves.
- `Job` (job.dfy): the notification text and `wrap` as a whole. The command's
  outcome (returned or raised) and the elapsed whole seconds are parameters.
- `Collector` (collector.dfy): the `/subscribe` and `/end` handlers as one
  step function, folded over a list of inbound events.
- `Install` (install.dfy): the launcher template and its filling-in.
- `Workflow` (workflow.dfy): `configure` end to end, and what a later `wrap`
  sees in the file it wrote.

Behaviour of the code worth stating plainly:

- A `/subscribe` of a name that is already taken leaves the registration
  alone and still gets the reply "Subscribed user <name> successfully".
- Only ids that read as `None` (a missing key or JSON `null`) are dropped during
  resolution. An empty-string id still resolves.
- Subscribed ids are written as JSON integers.
- `wrap` without `--users` requests no aliases. It then fails in the
  unpacking, like any request where nothing resolves.
- Before resolution, `config['token']` raises when the file has no `token`
  entry. The model reports that as its own error.
- Two requested aliases configured with the same id are two recipients, and
  that id is sent the notification twice.
- The name is the field after the first space, so it can be empty:
  `/subscribe  alice` (two spaces) registers the empty name, not `alice`,
  and the reply is "Subscribed user  successfully".
- A subscriber who registers under the name `token` replaces the bot
  credential in the written file with their user id, and `wrap` then builds
  its bot from that id.

## Model

| member | source | states |
|---|---|---|
| Text.Split | telewrapper.py:70 | `str.split(" ")` gives at least one field, and no field contains the separator |
| Text.JoinSplit | telewrapper.py:70 | joining the fields of a split with the separator gives back the original text, so the split loses nothing |
| Text.SplitJoin | telewrapper.py:104 | splitting the single-space join of a non-empty, space-free alias list gives back exactly that list |
| Text.SplitFieldCount | telewrapper.py:70 | a text has a second field exactly when it contains the separator |
| Text.Decimal | telewrapper.py:52 | the rendering of a natural number is a non-empty digit string without a superfluous leading zero |
| Text.DecimalRoundTrip | telewrapper.py:57 | reading a rendered number back gives the number |
| Text.ParseDecimalRoundTrip | telewrapper.py:57 | every canonical digit string is the rendering of the number it denotes, so rendering is a bijection onto canonical strings |
| ConfigFile.PyGet | telewrapper.py:42 | `config.get(key, None)` is an id exactly when the key is present with a non-null value, and then it is that value |
| ConfigFile.Merge | telewrapper.py:91-96 | the written configuration has the loaded keys (none if loading failed), `token` and every collected alias; each alias maps to its id, including an alias named `token`; otherwise `token` holds the new credential; every other loaded key keeps its value |
| Resolution.Put | telewrapper.py:42 | storing into a dict keeps an existing key's position and replaces its value; a new key goes last |
| Resolution.UserDict | telewrapper.py:42 | the comprehension's dict has as keys each requested alias exactly once (the request with repeats dropped at their later occurrences), each with its `config.get` value |
| Resolution.DedupOrder | telewrapper.py:42 | a request with its repeats dropped lists the aliases in the order of their first request |
| Resolution.Resolved | telewrapper.py:43 | the filtered list holds exactly the dict items whose value is not `None` |
| Resolution.ResolvedKeepsOrder | telewrapper.py:43 | filtering keeps the survivors in first-request order |
| Resolution.Resolve | telewrapper.py:42-43 | it fails exactly when no requested alias resolves; otherwise the recipients are all requested aliases with a non-null entry, each with its configured id, each once, in first-request order |
| Resolution.RepeatedAliasCollapses | telewrapper.py:42 | repeating an already requested alias changes nothing |
| Resolution.AllResolveDistinct | telewrapper.py:42-43 | when all requested aliases are distinct and resolve, the recipients are exactly the request, in order, with one id per alias |
| Job.NotificationText | telewrapper.py:52-57 | the message text reads back, through the independent parser, as exactly the outcome and the elapsed seconds it was built from |
| Job.NotificationRoundTrip | telewrapper.py:49-58 | an outcome's prefix, the rendered seconds and the " seconds" suffix read back as whether the job raised and how many seconds it took |
| Job.NotificationTextInjective | telewrapper.py:49-58 | different outcomes or durations never give the same text |
| Job.Broadcast | telewrapper.py:32-37 | one message per id, in id order, all with the same text |
| Job.Wrap | telewrapper.py:39-58 | a missing `token` key, or no resolvable alias, stops the run before the command and before any send; otherwise the bot uses the configured token, the recipients are the resolution's, and each resolved alias gets one message, to its id, in order (an id configured under two requested aliases gets two), reading "job failed" if the command raised and "job finished" if it returned, plus the elapsed seconds |
| Job.SharedIdNotifiedTwice | telewrapper.py:36-43 | two distinct requested aliases configured with the same id make that id receive the notification twice |
| Collector.SubscribeName | telewrapper.py:70 | a name exists exactly when the text contains a space; it is the possibly empty, space-free field after the first space |
| Collector.SubscribeNameOf | telewrapper.py:70 | in `/subscribe <name>`, the name is the word after the first space; trailing words are ignored |
| Collector.ReplyFor | telewrapper.py:70-81 | every reply goes to the event's sender; `/end` gets "Ending bot"; a `/subscribe` gets the usage text exactly when its text has no space, and otherwise the success text naming the word after the first space |
| Collector.SetDefault | telewrapper.py:72 | `setdefault` keeps every existing entry, adds only the given key, and maps a new key to the given id |
| Collector.Step | telewrapper.py:65-82 | once polling stopped, an event changes nothing; otherwise each event gets exactly one reply; `/end` stops polling and leaves the registrations alone; a `/subscribe` without a name leaves the registrations alone; a named one adds the name, mapped to the sender only if the name was free |
| Collector.Run | telewrapper.py:86 | the polling loop only ever adds replies: the replies sent before are a prefix of those sent after |
| Collector.RunKeepsRegistrations | telewrapper.py:72 | registrations are never overwritten or removed by any later events |
| Collector.RunAfterEnd | telewrapper.py:78-86 | once polling has stopped, no later event changes the state |
| Collector.RunAppend | telewrapper.py:86 | handling events in two batches is the same as handling them in one |
| Collector.EndIsFinal | telewrapper.py:78-86 | after an `/end`, the collector is finished, and the events that follow change neither the registrations nor the replies |
| Collector.RunRegistrant | telewrapper.py:66-82 | from any listening state, a name ends up with its earlier registration, else with its first subscriber before the first `/end`, else unregistered |
| Collector.CollectedRegistrations | telewrapper.py:65-86 | the collected map sends each name to the first sender who subscribed it before the first `/end`, and holds no other names |
| Collector.RunReplies | telewrapper.py:65-82 | polling continues exactly while no `/end` has arrived; each handled event gets one reply, addressed to its sender, in order; events after `/end` get none |
| Collector.SecondSubscriberIgnored | telewrapper.py:70-73 | two `/subscribe <name>` from different senders leave the name with the first sender only |
| Install.Format | telewrapper.py:104 | filling a template succeeds exactly when every field has a value; a failure names a missing field |
| Install.LauncherText | telewrapper.py:17-18 | filling the launcher template cannot fail, and the launcher is the template with the configuration path verbatim and the aliases joined by single spaces |
| Install.LauncherLine | telewrapper.py:104 | the launcher is the shebang line, then its words joined by single spaces |
| Install.LauncherRoundTrip | telewrapper.py:104 | with no space or line break in the path or in any alias, the launcher has two lines, and splitting the second one at spaces gives the path and exactly the given aliases back |
| Workflow.Configure | telewrapper.py:88-96 | the written configuration maps each name to its first subscriber's id, keeps `token` as the new credential unless someone subscribed as `token`, and keeps every other existing key's value; it holds no other keys |
| Workflow.ConfigureThenWrap | telewrapper.py:40-58 | when `wrap` reads the configuration `configure` wrote, a request for a subscribed name sends one message, to that name's first subscriber only; the bot uses the new credential, or the user id of whoever subscribed as `token` |

## Left out

- Running the command (`printAndExecute`, `subprocess.check_call` with a shell) is process I/O. It is reduced to an outcome flag: `Completed` if the call returned, `Raised` if it raised an `Exception`, which line 49 catches. A `KeyboardInterrupt` (Ctrl-C during the job) is not an `Exception`: it escapes `wrap` and no message is sent. The model has no outcome for that.
- Clock readings and the `int(...)` truncation of their float difference are floating point. The elapsed time is a given natural number, so a clock stepping backwards is not modelled.
- The bot library is left out: `TeleBot`, `send_message`, `reply_to`, `polling`, `stop_polling`, and how it routes messages to the `subscribe` and `end` handlers. Inbound traffic is a list of already classified events, and outbound messages are lists of `Message` or `Reply` values. Transport errors are not modelled, including a failing `reply_to` inside the `try` at line 73, which would trigger the usage reply.
- Collector.Step: once `/end` is handled, no later event is handled. Whether the library still delivers updates it fetched before `stop_polling` is not modelled.
- JSON loading and dumping, `os.path.expanduser`, and file reads and writes are file I/O. A load is either a configuration map or a failure. The expanded path computed and ignored at line 28 is not modelled. Neither is a file holding valid JSON that is not an object.
- ConfigFile.Merge: configuration values are only JSON `null`, strings and integers. Other JSON kinds, and the key order of the written file, are not modelled.
- Console output (the echoed command line, the list of recipients, tracebacks, colours) has no stateable logic.
- `install`'s script copy, `chmod` and path joining are file-system plumbing, and so is `main`'s argument parsing. The default alias list `[]` appears only as an empty request.
- Collector.CollectedRegistrations: the fold handles events one at a time in arrival order. The bot at line 64 keeps the library's threaded dispatch, so handlers may run concurrently on a worker pool; two `/subscribe` of one name in the same batch can then register whichever handler runs first, not the first to arrive.
- Collector.ReplyFor: addresses each reply to the sender; the chat `reply_to` answers in is not modelled, as for RunReplies below.
- Collector.RunReplies: a reply is addressed to the sender. `reply_to` at lines 73 and 76 answers in the message's chat, which is the sender only in a private chat with the bot.
- Workflow.ConfigureThenWrap: assumes `wrap` reads the file `configure` wrote. With the default paths this is not so: `configure` writes the expanded `~/.tele.config` (line 90), while `wrap` opens the unexpanded path (line 29) unless a shell expanded it, which raises before the command runs.
- Install.LauncherRoundTrip: states the round trip for single-space splitting. It does not model how bash quotes or word-splits the launcher line.
- The wrapper's own exit status (always 0, even after a failed job) is not modelled.
