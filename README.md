# custom_aider command extensions, modelled in Dafny

custom_aider extends the aider chat CLI with extra slash commands, plus a small
syntax-highlighting text editor. This project models the logic of those pieces and proves
what each promises:

- **Command registry.** `CommandsRegistry` keeps three insertion-ordered tables: handlers
  keyed `cmd_<name>`, completion providers keyed `completions_<name>`, and descriptions.
  Its install step copies handlers and providers onto the host's command class but never
  overwrites an attribute the class already has.
- **`/customchat`.** It expands `@text-<keyword>` references from the keywords file,
  whatever JSON value that file holds, then passes the message to `/ask`, `/architect`
  or `/code` according to the edit format.
- **`/explain`.** It finds a function or class in the chat's Python files (the syntax
  tree is an input) and analyses its body. It also builds the Mermaid diagram and the
  signature line, parses `--level=`, and offers completions.
- **`/glog`.** It parses its options and builds the `git log` argument vector.
- **`/query_rag_from_aichat`.** It splits the arguments, posts one request (the server
  is a function parameter), checks the reply and extracts the `<context>` span. It then
  formats the answer and adds it to the chat.
- **`/context_load` and `/context_backup`.** These cover the two context directories,
  sorted listing, lookup with the backup directory checked first, and the four-field
  record check. They also cover the restore sequence on the host's coder (reset, `/add`
  of the files that exist, then the saved messages) and the backup record. Together these
  prove that a backup loads back.
- **The `SyntaxText` widget's editing logic.** This covers token-type to tag mapping,
  highlight spans from running offsets, the `@` word before the cursor, keyword
  suggestions and what choosing one inserts, bounded selection moves and the
  pending-highlight flag.

The modules are:

| module | role |
|---|---|
| `Util` | string helpers with Python's meanings: `strip`, `split`, `join`, `in`, `\w` |
| `Ordering` | Python's string order and `sorted`, including `sorted(set(...))` |
| `OrderedDict` | a `dict` with its insertion order |
| `PyAst` | the syntax-tree shape and `ast.walk` |
| `Host` | JSON values with Python's truthiness, `in` and iteration, and the host coder's state |
| one module per command and the widget | the logic above |

Stateful code is imperative: the registry, the widget and the coder are classes whose
methods modify their fields, and the source's loops are loops with invariants.

## Model

| member | source | states |
|---|---|---|
| Registry.CommandsRegistry.constructor | custom_aider/commands_registry.py:6-8 | the three tables start empty |
| Registry.CommandsRegistry.Register | custom_aider/commands_registry.py:11-30 | a non-callable handler raises before any table changes. Otherwise the handler is stored under `cmd_<name>`, by last write, and its doc text becomes the description only when non-empty. A falsy completions argument is ignored. A truthy non-callable one raises after the handler is stored. A callable one is stored under `completions_<name>` |
| Registry.CommandsRegistry.InstallCommands | custom_aider/commands_registry.py:33-51 | the class ends with the handlers merged in, then the providers, each only where the attribute was missing. The skipped handler keys are in table order |
| Registry.InstallTable | custom_aider/commands_registry.py:37-46 | the install loop sets exactly the entries the class lacks and returns the colliding keys in order |
| Registry.Colliding | custom_aider/commands_registry.py:37-40 | a key is warned about iff it is registered and already on the class |
| Registry.InstallKeepsExisting | custom_aider/commands_registry.py:37-51 | installing never changes an attribute the class already had |
| Registry.InstallAddsFree | custom_aider/commands_registry.py:37-51 | installing adds every free handler and provider key, and no other key |
| Registry.CompletionInstalledIndependently | custom_aider/commands_registry.py:48-51 | a provider whose key is free is installed whether or not its command was skipped |
| Registry.InstallIdempotent | custom_aider/commands_registry.py:37-51 | a second install changes nothing and reports every handler as a collision |
| Registry.KeysDisjoint | custom_aider/commands_registry.py:22-29 | no `cmd_` key is a `completions_` key |
| Registry.StripCommandPrefix | custom_aider/commands_registry.py:59 | the listed names, with `cmd_` added back, are the table's keys in order |
| Registry.CommandsRegistry.ListCommands | custom_aider/commands_registry.py:57-59 | one name per handler, without repeats, in first-registration order |
| Registry.CommandsRegistry.GetCommand | custom_aider/commands_registry.py:62-64 | the handler stored for the name, and `None` iff there is none |
| Registry.CommandsRegistry.GetDescription | custom_aider/commands_registry.py:67-69 | the stored description, or "No description available" |
| Registry.CommandsRegistry.RemoveCommand | custom_aider/commands_registry.py:72-76 | the name leaves all three tables, and the other entries keep their order |
| Registry.CommandsRegistry.Clear | custom_aider/commands_registry.py:79-83 | all three tables are empty |
| Registry.LastRegistrationWins | custom_aider/commands_registry.py:11-64 | re-registering a name replaces its handler and lists the name once |
| Registry.DescriptionSurvivesUndocumented | custom_aider/commands_registry.py:19-69 | an undocumented re-registration keeps the old description, and an undocumented name gets the placeholder |
| Registry.RejectedHandlerStoresNothing | custom_aider/commands_registry.py:15-16 | a rejected handler leaves nothing to get or list |
| Registry.BadCompletionsLeavesHandler | custom_aider/commands_registry.py:19-29 | a bad completions argument raises but leaves the handler stored and no provider |
| Registry.ListingOrder | custom_aider/commands_registry.py:57-59 | the names come in first-registration order |
| Registry.RemoveAndClear | custom_aider/commands_registry.py:72-83 | after removal (twice) or clearing, the name is unknown and has no description |
| Registry.InstallTwice | custom_aider/commands_registry.py:37-51 | an existing attribute is kept and reported on both installs, and the provider is still installed |
| OrderedDict.Dict.Put | custom_aider/commands_registry.py:23 | `d[k] = v` keeps an existing key's position and appends a new key |
| OrderedDict.Dict.Pop | custom_aider/commands_registry.py:74-76 | `pop(k, None)` removes the key and keeps the order of the rest |
| OrderedDict.PutPut | custom_aider/commands_registry.py:22-23 | writing a key twice is writing it once with the second value |
| OrderedDict.PopAbsent | custom_aider/commands_registry.py:74-76 | removing an absent key changes nothing |
| CustomChat.KeywordAt | custom_aider/commands/customchat_command.py:32 | the captured keyword is a non-empty run of word characters |
| CustomChat.MatchesFrom | custom_aider/commands/customchat_command.py:32-33 | `finditer` yields a match at p iff the pattern matches there (with the maximal keyword run). The matches do not overlap and go left to right |
| CustomChat.Matches | custom_aider/commands/customchat_command.py:32-33 | the same, for the whole text |
| CustomChat.NoMatchInside | custom_aider/commands/customchat_command.py:32-33 | no match can start inside another match |
| CustomChat.HasReferenceIff | custom_aider/commands/customchat_command.py:59 | the text has a reference iff the match list is non-empty |
| CustomChat.MentionsIffMatched | custom_aider/commands/customchat_command.py:40-45 | a keyword is referenced iff some match captures it |
| CustomChat.ExpansionFailsIffUnknown | custom_aider/commands/customchat_command.py:40-52 | expansion fails iff some referenced keyword is missing from the table |
| CustomChat.NoMarkerUnchanged | custom_aider/commands/customchat_command.py:55-68 | a text without `@text-` comes back unchanged |
| CustomChat.SinglePass | custom_aider/commands/customchat_command.py:55-57 | an expansion that itself contains a reference is not expanded again |
| CustomChat.SpliceStep | custom_aider/commands/customchat_command.py:55-57 | replacing one span, after every later span is replaced, extends the left-to-right rendering by one match |
| CustomChat.Collect | custom_aider/commands/customchat_command.py:40-45 | the unknown keywords are exactly the missing captured ones, each once. With none unknown, there is one replacement per match, in order |
| CustomChat.SpliceRight | custom_aider/commands/customchat_command.py:55-57 | splicing from the right gives each match replaced by its expansion, left to right |
| CustomChat.ExpandKeywords | custom_aider/commands/customchat_command.py:27-68 | the missing keywords are reported sorted, and exactly when expansion fails. The result is the expansion unless a reference exists and the prompt is cancelled |
| CustomChat.LoadKeywords | custom_aider/commands/customchat_command.py:10-25 | the loaded JSON value is returned unchanged, whatever its shape. Any failure gives the falsy `{}` and an error naming the file or the cause |
| CustomChat.StringEntries | custom_aider/commands/customchat_command.py:42-43 | the keywords a loaded value can expand: exactly an object's string-valued entries |
| CustomChat.ExpandableIff | custom_aider/commands/customchat_command.py:40-57 | neither loop raises and no keyword is unknown iff every reference names a string entry of an object |
| CustomChat.ExpandValueMeaning | custom_aider/commands/customchat_command.py:27-68 | over any JSON value: a TypeError iff a lookup raises (`in` on a number or boolean, indexing a list or string that contains the keyword) or, with no keyword unknown, a value to splice is not a string. Unknown keywords stop it otherwise. Splicing succeeds iff the expansion over the string entries does, gives that expansion, and prompts iff the text has a reference |
| CustomChat.CustomChatCommand | custom_aider/commands/customchat_command.py:100-108 | a sent message goes to ask, architect or code by the edit format |
| CustomChat.CustomChatCommandMeaning | custom_aider/commands/customchat_command.py:86-108 | a message is sent iff all of these hold: the args are not blank, the loaded value is truthy, the expansion over its string entries succeeds and is non-empty, and the prompt is not cancelled. It is sent expanded. A TypeError escapes exactly as for `expand_keywords`. A falsy value stops before any lookup |
| CustomChat.NoReferenceSentUnchanged | custom_aider/commands/customchat_command.py:86-108 | a message without `@text-` is sent unchanged whatever truthy value the file holds |
| CustomChat.ListTableRaises | custom_aider/commands/customchat_command.py:40-43 | a file holding a list raises once the message references a keyword the list contains |
| CustomChat.CustomChatCompletions | custom_aider/commands/customchat_command.py:111-127 | empty when the value is falsy. A TypeError iff the value cannot be iterated or yields a non-string. Otherwise the sorted multiset of `"@text-" + item` over the iterated items, repeats included. For an object with distinct keys, one per key, strictly sorted |
| PyAst.WalkQueueComplete | custom_aider/commands/explain_command.py:99 | the breadth-first walk of a queue visits exactly the nodes of its trees |
| PyAst.WalkComplete | custom_aider/commands/explain_command.py:24 | `ast.walk(n)` visits m iff m is n or lies below it |
| Explain.CallNamesMeaning | custom_aider/commands/explain_command.py:104-105 | a name is collected iff some node calls that bare name |
| Explain.BodyInfoMeaning | custom_aider/commands/explain_command.py:90-107 | has_loops means a For/While lies in the subtree, has_conditionals means an If does, and the calls are the subtree's named calls. line_count is the number of direct body statements |
| Explain.AnalyzeBody | custom_aider/commands/explain_command.py:90-107 | the walk loop computes that body information |
| Explain.NodeType | custom_aider/commands/explain_command.py:47-54 | "async function" iff an async function definition, "function" iff a plain one, "class" iff a class, and "unknown" iff anything else |
| Explain.FunctionDefs | custom_aider/commands/explain_command.py:80-81 | exactly the function definitions of a class body |
| Explain.AnalysisOf | custom_aider/commands/explain_command.py:30-88 | the analysis carries the node's name, type, docstring, source and line. A function adds its args and defaults. A class adds its bases and its methods' analyses |
| Explain.MethodsOfMeaning | custom_aider/commands/explain_command.py:77-82 | a class's method list is the analysis of each function definition of its body, in order |
| Explain.AnalyzeNode | custom_aider/commands/explain_command.py:30-88 | the method loop computes that analysis |
| Explain.FindTarget | custom_aider/commands/explain_command.py:22-28 | `None` iff no definition in the tree has the name, otherwise the analysis of the first one in walk order |
| Explain.MethodEdges | custom_aider/commands/explain_command.py:134-135 | one edge line per method, in order |
| Explain.FlowLines | custom_aider/commands/explain_command.py:113-137 | the header comes first. A function gets 4 lines, or 7 with conditionals. A class gets 2 plus one per method, with its node and its edges. Anything else gets the header alone |
| Explain.GenerateControlFlow | custom_aider/commands/explain_command.py:113-137 | the appending loop produces those lines, newline-joined |
| Explain.DiagramHeader | custom_aider/commands/explain_command.py:115 | every diagram starts with "graph TD" |
| Explain.SignatureParts | custom_aider/commands/explain_command.py:174-180 | one part per argument. The defaults go on the trailing arguments, in order, and the rest are bare names |
| Explain.SignatureLine | custom_aider/commands/explain_command.py:182 | the line is `def name(`, then the parts joined by `", "`, then `):` |
| Explain.SignatureLineParts | custom_aider/commands/explain_command.py:174-182 | parts without `", "` can be read back from the line by splitting its middle on `", "` |
| Util.SplitOnJoinComma | custom_aider/commands/explain_command.py:182 | `", ".join(parts).split(", ")` gives back non-empty parts none of which holds `", "` |
| Explain.ParseExplainArgs | custom_aider/commands/explain_command.py:198-211 | the no-target error iff the args are blank. Otherwise the outcome is that of the whitespace tokens of the stripped args |
| Explain.RequestOf | custom_aider/commands/explain_command.py:203-211 | the target is the first token. Without a second token starting `--level=`, the level is basic and later tokens are ignored. With one, the level is the piece after its first `=`: invalid iff it is not basic, deep or eli5, and taken otherwise |
| Explain.LeadingTokens | custom_aider/commands/explain_command.py:203 | `target option` followed by a space-led tail splits into the two tokens and then the tail's tokens |
| Explain.LevelPiece | custom_aider/commands/explain_command.py:208 | the level is the text between the first and the second `=` |
| Explain.ParseExplainPlainOption | custom_aider/commands/explain_command.py:202-207 | `target option …`, with an option without the `--level=` prefix and any further tokens, asks for a basic explanation of the target |
| Explain.ParseExplainLevelOption | custom_aider/commands/explain_command.py:202-211 | `target --level=… …`: the level, the piece between the first `=` and any next one, is taken when it is basic, deep or eli5, and otherwise gives the invalid-level error, whatever tokens follow |
| Explain.ParseExplainLevelToken | custom_aider/commands/explain_command.py:207-211 | `target --level=w…` followed by any tokens gives level w when w is one of the three, and otherwise the invalid-level error |
| Explain.ParseExplainDefaultLevel | custom_aider/commands/explain_command.py:207 | a second token without the prefix leaves the level basic |
| Explain.SearchTarget | custom_aider/commands/explain_command.py:214-257 | "found" is true iff some readable, parsable `.py` file defines the target. A file's explanation is saved iff it defines the target and its save succeeds; the saved file is the first such one, since a failed save moves on to the next file |
| Explain.RegexNameAt | custom_aider/commands/explain_command.py:288-289 | the captured name starts with a letter or `_` and is made of word characters |
| Explain.FindIter | custom_aider/commands/explain_command.py:288 | `re.finditer` for any matcher whose matches start where tried and end later: the matches are left to right, each found at its start, none overlaps the next, and no match starts in a gap between them |
| Explain.FindIterUnique | custom_aider/commands/explain_command.py:288 | that description has exactly one solution: the finditer result |
| Explain.RegexDefMatches | custom_aider/commands/explain_command.py:288 | the pattern's matches over a file's text, with the same description |
| Explain.RegexDefNames | custom_aider/commands/explain_command.py:288-289 | the captured names of exactly those matches, one per match, in order |
| Explain.RegexNoOverlap | custom_aider/commands/explain_command.py:288 | matches do not overlap: `def xdef y` names only `xdef` |
| Explain.TreeDefNames | custom_aider/commands/explain_command.py:275-277 | exactly the names of the tree's definitions |
| Explain.PublicVariants | custom_aider/commands/explain_command.py:278-285 | exactly the public names, each with its three level variants |
| Explain.FileCompletions | custom_aider/commands/explain_command.py:264-302 | a file's completions are its public definitions (from the tree, or from the regex fallback when the file does not parse) and their variants |
| Explain.ExplainCompletions | custom_aider/commands/explain_command.py:259-304 | the completions of all files, without repeats, sorted |
| GitLog.LastCountMeaning | custom_aider/commands/git_commands.py:28-31 | the count is the token after the last `-n` that has one, taken verbatim, and "10" when there is no such pair |
| GitLog.ParseGlogArgs | custom_aider/commands/git_commands.py:23-35 | the parser loop computes that count, and sets `--all` and `--stat` iff those tokens occur |
| GitLog.Glog | custom_aider/commands/git_commands.py:18-48 | no repository means no command. Otherwise the five fixed elements come first, with `-n<count>` third, then `--all` and `--stat`, each at most once, in that order |
| GitLog.CountAlsoOption | custom_aider/commands/git_commands.py:28-35 | `-n --all` sets the count to `--all` and also enables `--all` |
| GitLog.GlogCompletions | custom_aider/commands/git_commands.py:59-61 | exactly the three options, each once |
| Util.SplitOnce | custom_aider/commands/aichat_commands.py:18-19 | `strip().split(maxsplit=1)`: no parts iff the string is blank. One part iff the stripped string has no space, and then the part is that string. Two parts iff it has a space: the stripped string is a space-free first word, a non-empty run of whitespace, and a rest that starts with a non-space |
| Util.SplitOnceUnique | custom_aider/commands/aichat_commands.py:18-19 | any word, whitespace run and rest that make up the stripped string are the two parts |
| Util.SplitOnceWords | custom_aider/commands/aichat_commands.py:18-19 | a word, one space and a stripped rest split back into the word and the rest |
| Aichat.ParseRagArgs | custom_aider/commands/aichat_commands.py:18-23 | a usage error iff the stripped args hold no whitespace. Otherwise the stripped args are the name, a whitespace run and the query |
| Aichat.ParseRagArgsUnique | custom_aider/commands/aichat_commands.py:18-23 | stripped args made of a word, whitespace and a query parse as exactly that name and query |
| Aichat.ParseRagArgsRoundTrip | custom_aider/commands/aichat_commands.py:18-34 | a name and a query joined by a space give back that payload |
| Aichat.ExtractContextMeaning | custom_aider/commands/aichat_commands.py:53-57 | `None` iff no opening tag has a closing tag after it. Otherwise the result is the stripped text between the first opening tag and the first closing tag after it |
| Aichat.ExtractContextRoundTrip | custom_aider/commands/aichat_commands.py:53-57 | a text wrapped in the tags is extracted back, stripped |
| Aichat.FormatOutput | custom_aider/commands/aichat_commands.py:60-68 | the five pieces newline-joined, spelled out |
| Aichat.RagOutcomeMeaning | custom_aider/commands/aichat_commands.py:37-86 | an answer comes back iff the reply is an object whose "data" is a string holding a context span, and the answer is the formatted output. A missing "data" key gives the missing-data error, and a connection failure gives "cannot connect" |
| Aichat.QueryRagFromAichat | custom_aider/commands/aichat_commands.py:17-86 | a usage error sends no request. Otherwise one request's reply decides the outcome, only an answer adds exactly the user and "Ok." messages, and nothing else changes |
| Aichat.RagCompletions | custom_aider/commands/aichat_commands.py:88-92 | the RAG names are single non-empty tokens |
| Aichat.CompletionParses | custom_aider/commands/aichat_commands.py:18-92 | a completed name followed by a query parses as that name and query |
| Host.ChatMessage | custom_aider/commands/aichat_commands.py:74-77 | a message has exactly the role and content keys, holding the given strings |
| Host.Coder.Reset | custom_aider/commands/context_load_command.py:77 | the reset clears the files and both histories, and nothing else |
| Host.Coder.RequestAdd | custom_aider/commands/context_load_command.py:89 | one `/add` request is appended, and nothing else changes |
| ContextLoad.EntriesOf | custom_aider/commands/context_load_command.py:18 | the glob results, each once |
| ContextLoad.BackupBeforeCreate | custom_aider/commands/context_load_command.py:15-20 | every backup path sorts before every create path |
| ContextLoad.SortedBackupFirst | custom_aider/commands/context_load_command.py:20 | in the sorted listing, no create file precedes a backup file |
| ContextLoad.ListContextFiles | custom_aider/commands/context_load_command.py:10-20 | the JSON entries of both directories that exist, sorted, without repeats, with backups first |
| ContextLoad.Locate | custom_aider/commands/context_load_command.py:62-70 | the backup path when it exists, else the create path when it exists, else `None` |
| ContextLoad.FindContextFile | custom_aider/commands/context_load_command.py:62-66 | the search loop with its break finds that path |
| ContextLoad.FieldsCheck | custom_aider/commands/context_load_command.py:30 | `all(field in data …)` holds iff every field is present. It raises only where `in` raises on the first field |
| ContextLoad.LoadContextFile | custom_aider/commands/context_load_command.py:22-35 | loaded iff the file parses and holds all four fields. Every error starts with "Error loading context file: ". An object missing fields gives the missing-fields message |
| Host.Iterate | custom_aider/commands/context_load_command.py:81 | iteration is defined exactly for lists, strings (one item per character) and objects |
| ContextLoad.FileNames | custom_aider/commands/context_load_command.py:81-82 | the names are the iterated items when they are all strings. A list of strings always gives names |
| ContextLoad.Kept | custom_aider/commands/context_load_command.py:80-86 | exactly the existing names, in order |
| ContextLoad.KeptConcat | custom_aider/commands/context_load_command.py:80-86 | the kept names of two lists joined are the kept names of each, joined: order and repeats are kept |
| ContextLoad.MissingConcat | custom_aider/commands/context_load_command.py:80-86 | the same for the warned-about names |
| ContextLoad.KeptSingle | custom_aider/commands/context_load_command.py:80-86 | one name is kept iff it exists, and warned about otherwise |
| ContextLoad.Missing | custom_aider/commands/context_load_command.py:80-86 | exactly the missing names, each warned about |
| ContextLoad.KeptMissingPartition | custom_aider/commands/context_load_command.py:80-86 | every name is kept or warned about, exactly once |
| ContextLoad.KeptAll | custom_aider/commands/context_load_command.py:80-86 | when every file exists, all are kept in order |
| ContextLoad.KeepExisting | custom_aider/commands/context_load_command.py:80-86 | the loop computes the kept and the missing names |
| ContextLoad.CmdContextLoad | custom_aider/commands/context_load_command.py:37-102 | blank args, and only they, list the sorted files or report that there are none. A name is not found iff it resolves to no file. A failed check reports the loader's message. These three leave the coder unchanged. A record that passes the check always resets the coder. If its files and messages have the right shape, it is then restored: the files that exist are added with one `/add` and the saved messages become the done messages. Otherwise it fails after the reset |
| ContextLoad.ListRecordPassesCheck | custom_aider/commands/context_load_command.py:30-81 | a JSON list naming the four fields passes the check but has no files to restore |
| ContextLoad.ListedEntryName | custom_aider/commands/context_load_command.py:107 | a listed path is its directory plus its `.json` entry name |
| ContextLoad.ContextLoadCompletions | custom_aider/commands/context_load_command.py:104-109 | the entry names of the sorted listing, in that order, each ending in `.json` |
| ContextBackup.BackupPrefix | custom_aider/commands/context_backup_command.py:25 | empty args give the default prefix. Other args give exactly the stripped args, which are empty iff the args are all spaces |
| ContextBackup.BlankArgsEmptyPrefix | custom_aider/commands/context_backup_command.py:25 | a space gives the empty prefix, not the default |
| ContextBackup.BackupFileName | custom_aider/commands/context_backup_command.py:26 | the name is `<prefix>_` + stamp + `.json`, and the stamp can be read back from it |
| ContextBackup.BackupRecord | custom_aider/commands/context_backup_command.py:31-36 | the record has exactly the four required keys. The files and messages are stored as given |
| ContextBackup.CmdContextBackup | custom_aider/commands/context_backup_command.py:17-45 | the backup directory exists afterwards. The record is written at `<dir>/<prefix>_<stamp>.json` iff the write succeeds, and the other files are untouched |
| ContextBackup.RecordLoadsBack | custom_aider/commands/context_backup_command.py:31-36 | a backup record passes the loader's check and gives back its files and messages |
| ContextBackup.BackupRoundTrip | custom_aider/commands/context_backup_command.py:18-40 | a saved backup (no `/` in its name) is listed and found by `/context_load`. It loads back to the chat files and the done and current messages |
| SyntaxWidget.MapTokenToTag | custom_aider/gui/editors/tkinter_editor/syntax_text.py:247-260 | the matched tag goes keyword > string > comment > function > name.tag, each iff the earlier ones are absent. The result is one of the five configured tags |
| SyntaxWidget.NameFunctionSubsumed | custom_aider/gui/editors/tkinter_editor/syntax_text.py:256 | the `name.function` test adds nothing to the `function` test |
| SyntaxWidget.SpansOf | custom_aider/gui/editors/tkinter_editor/syntax_text.py:279-289 | the spans lie within the text, carry configured tags and do not overlap, in increasing order |
| SyntaxWidget.SpansOfTokens | custom_aider/gui/editors/tkinter_editor/syntax_text.py:279-289 | each span starts at the length of the text before its token. The spans are exactly those of the tagged tokens |
| SyntaxWidget.SpansCount | custom_aider/gui/editors/tkinter_editor/syntax_text.py:286-288 | one span per tagged token |
| SyntaxWidget.HighlightSpans | custom_aider/gui/editors/tkinter_editor/syntax_text.py:279-289 | the offset loop computes those spans and ends at the total length |
| SyntaxWidget.TrailingWordLength | custom_aider/gui/editors/tkinter_editor/syntax_text.py:109 | the longest run of word characters and hyphens at the end |
| SyntaxWidget.WordBeforeCursor | custom_aider/gui/editors/tkinter_editor/syntax_text.py:101-114 | an `@` and the word/hyphen run after it that ends the line. `None` iff no `@` is followed only by such characters |
| SyntaxWidget.MatchesOfMeaning | custom_aider/gui/editors/tkinter_editor/syntax_text.py:122-129 | exactly the keys with the prefix, with their values |
| SyntaxWidget.LabelSplit | custom_aider/gui/editors/tkinter_editor/syntax_text.py:150-200 | a label splits at " - " right after its key |
| SyntaxWidget.InsertionAgrees | custom_aider/gui/editors/tkinter_editor/syntax_text.py:199-200 | for a value without " - ", the source inserts the whole value, stripped |
| SyntaxWidget.InsertionTruncates | custom_aider/gui/editors/tkinter_editor/syntax_text.py:199-200 | for a value `a - b`, the source inserts only `a` |
| SyntaxWidget.ReplaceBeforeCursor | custom_aider/gui/editors/tkinter_editor/syntax_text.py:203-213 | the word before the cursor becomes the text, the rest of the line is kept, and the cursor ends after the text |
| SyntaxWidget.StaleIndexAgreesAtLineEnd | custom_aider/gui/editors/tkinter_editor/syntax_text.py:203-213 | at the line's end, the source's replacement is the intended one |
| SyntaxWidget.StaleIndexMidLine | custom_aider/gui/editors/tkinter_editor/syntax_text.py:203-213 | mid-line, it inserts the text too far right |
| SyntaxWidget.SyntaxText.constructor | custom_aider/gui/editors/tkinter_editor/syntax_text.py:14-45 | the plain lexer, no window, no selection, nothing pending |
| SyntaxWidget.SyntaxText.SetLexer | custom_aider/gui/editors/tkinter_editor/syntax_text.py:84-99 | a known name is used and highlights. An unknown name falls back to plain without highlighting |
| SyntaxWidget.SyntaxText.HideSuggestions | custom_aider/gui/editors/tkinter_editor/syntax_text.py:165-169 | the window is hidden, and nothing else changes |
| SyntaxWidget.SyntaxText.ShowSuggestions | custom_aider/gui/editors/tkinter_editor/syntax_text.py:116-163 | for an `@` word with matches, the rows are the matching keywords in table order and the first is selected. Otherwise the window is hidden |
| SyntaxWidget.SyntaxText.Navigate | custom_aider/gui/editors/tkinter_editor/syntax_text.py:171-187 | Up and Down move one row, never past the first or last. Nothing changes when the window is hidden or no row is selected |
| SyntaxWidget.SyntaxText.InsertSuggestion | custom_aider/gui/editors/tkinter_editor/syntax_text.py:189-216 | the corrected insertion (see Findings): the `@` word before the cursor is replaced by the selected keyword's whole value and the window is hidden |
| SyntaxWidget.SyntaxText.OnTextChange | custom_aider/gui/editors/tkinter_editor/syntax_text.py:241-245 | the flag is cleared and one highlight runs |
| SyntaxWidget.SyntaxText.OnKeyRelease | custom_aider/gui/editors/tkinter_editor/syntax_text.py:223-235 | a printable key with an `@` word before the cursor shows that word's matching keywords with the first selected, or hides the window when none match. A timer is scheduled only when none is pending, the flag is then set, and the debounce invariant is kept |
| SyntaxWidget.SyntaxText.KeyTimerFires | custom_aider/gui/editors/tkinter_editor/syntax_text.py:235-245 | a key timer runs one highlight, clears the flag and keeps the invariant |
| SyntaxWidget.SyntaxText.OnPaste | custom_aider/gui/editors/tkinter_editor/syntax_text.py:237-239 | a paste schedules a highlight whatever is pending |
| SyntaxWidget.SyntaxText.PasteTimerFires | custom_aider/gui/editors/tkinter_editor/syntax_text.py:239-245 | a paste timer runs one highlight and clears the flag |
| SyntaxWidget.SyntaxText.OnKeyPress | custom_aider/gui/editors/tkinter_editor/syntax_text.py:218-221 | a whitespace key hides the window |
| SyntaxWidget.TypingScenario | custom_aider/gui/editors/tkinter_editor/syntax_text.py:230-245 | with key releases and their timers, one highlight is pending at a time |
| SyntaxWidget.CutAllowsSecondPending | custom_aider/gui/editors/tkinter_editor/syntax_text.py:34-245 | a cut clears the flag under a running timer, so a second one gets scheduled |

## Left out

- HTTP, the filesystem, subprocesses, the clock and the browser are parameters or
  values. The server is a function from payload to reply. The working directory is a
  directory set and a file map. Time stamps, whether a write succeeds, and the set of
  existing chat files are parameters. Running git, opening the browser and the printed
  output are not modelled.
- Python's `ast` parsing and unparsing, Pygments lexing and Jinja2 rendering are not
  modelled. The tree and the token stream are inputs, and unparsed text is carried as
  strings. The `level` argument of `generate_html` and the rendered HTML are not
  modelled. Pygments' extra trailing newline token is part of the input stream.
- `\w`, `isspace`, `str.lower` and `strip` are taken over ASCII characters only.
- `inspect.cleandoc` is not applied to descriptions. A description is the doc text as given.
- The `input()` confirmation in `expand_keywords` is the `interrupted` parameter (Ctrl-C
  or not). The text printed around it is not modelled.
- Python's `setattr`/`hasattr` are a map of attribute names, and the `except` around
  `setattr` is not modelled, since setting a class attribute does not fail here.
- tkinter is not modelled: window creation, geometry, `bbox`, the listbox widgets, mouse
  selection, multi-line text and Tk's default key bindings. One consequence is that Up and
  Down move the text cursor when the window is hidden. The widget ends with the cursor's
  line and column.
- `SyntaxWidget.SyntaxText.InsertSuggestion`: models the corrected insertion of the
  whole value at the corrected position, not the source's as-written text and index. Those
  are the as-written members under Findings.
- `CustomChat.ExpandKeywords` runs its loops over a keyword table with string values. Other
  JSON shapes of the keywords file are handled by `CustomChat.ExpandValue`, without the
  printed report.
- `SyntaxText._load_keywords` is not modelled. The keyword table is a constructor argument
  holding string values.
- `Path` joins of absolute file names, `file.stat()` times in the listing and
  `completions_context_load`'s bare `except` (which matters only for I/O errors) are not
  modelled.
- `ContextLoad.Locate` joins a directory and a name as strings. It does not apply
  pathlib's normalisation, which drops `.` components and a trailing `/`. Nor does it
  model a path that names a directory. So `/context_load .` is `NotFound(".")` here, while
  the source finds the backup directory itself and reports the `IsADirectoryError` from
  `open` as a load error. Likewise `x.json/` is found by the source but not by the model.
- JSON numbers are a Python `int` when written without fraction or exponent and a `float`
  otherwise. NaN, infinities and the float formatting in error texts are not modelled.
- `CmdContextBackup`: a `json.dump` that fails part-way may leave a partial file. Here a
  failed write leaves the file map as it was.
- `Explain.SearchTarget` does not model the output file's name and time stamp. Read and
  parse failures are per-file inputs.
- `Util.Join` carries no contract of its own. Its uses state the joined text where it
  matters.
- custom_aider/gui/editors/editor_tkinter/editor_tkinter.py,
  custom_aider/commands/streamlit_editor_command.py, ac.py, project-consolidator.py and
  the host glue (custom_aider_main.py, custom_coder.py, monkey_patch.py, main.py,
  setup.py) are not part of this model. They are UI, subprocess, floating-point or
  packaging code.

## Findings

| source | as written | input that shows it | evidently intended | confidence | as-written member | corrected member |
|---|---|---|---|---|---|---|
| custom_aider/gui/editors/tkinter_editor/syntax_text.py:198-200 | the inserted text is `label.split(' - ')[1]`, so a value containing " - " is cut at its first " - ". The comment at line 198 says it takes "just the key part", yet index 1 is the value | keyword `k` with value `a - b`: the row `@k - a - b` inserts `a` | insert the selected keyword's whole value, stripped | medium, not executed | SyntaxWidget.InsertionTextAsWritten, SyntaxWidget.InsertionTruncates | SyntaxWidget.InsertedText, SyntaxWidget.InsertionAgrees |
| custom_aider/gui/editors/tkinter_editor/syntax_text.py:203-213 | the cursor index is read as a string before the `@` word is deleted and reused for the insert, which then lands one word-length further right | line `@ab xyz`, cursor after `@ab`, value `V`: the line becomes ` xyVz` | replace the word by the value: `V xyz` | high, not executed | SyntaxWidget.ReplaceAtStaleIndex, SyntaxWidget.StaleIndexMidLine | SyntaxWidget.ReplaceBeforeCursor, SyntaxWidget.StaleIndexAgreesAtLineEnd |

`SyntaxText.InsertSuggestion` uses the corrected members.
