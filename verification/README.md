# Verified models of the dotagents and sandbox-toolkit algorithms

Models, in Dafny, of the parts of the repository where an invariant over a loop, a
stack, a byte stream or every interleaving of tasks decides what is right, with
proofs of what those parts promise. `dafny verify dfyconfig.toml` checks the whole
project.

- **Skill documents** (`Text`, `Slugs`, `Headings`, `HeadingLines`, `Sections`,
  `Outline`, `Documents`): the scanner for ATX and setext headings outside fenced
  code, the stack that nests them into sections with spans, slug allocation, the
  depth-first outline and the search by slug. The code simplifies sections 4.2, 4.3
  and 4.5 of CommonMark, and the code decides.
- **Exec streams** (`Frames`, `Statuses`, `Leftovers`, `Lines`, `Pipeline`, `Results`):
  the frame encoder and the incremental decoder, the text of a status, the incremental line splitter, and the pumps, waiter,
  bounded channel and consumer of one request as a protocol whose schedules are all
  considered; from there, what a caller gets from a direct answer and from an
  upgraded one.
- **Templates and paths** (`Templates`, `Paths`): placeholder parsing as a bijection
  with canonical segment lists, expansion as one substitution, and the depth counter
  that agrees with the walk it stands for.
- **PTY sessions** (`PtyProtocol`, `PtySession`): claim, reclaim and the reaper over
  two locks, every lock section one move; the session, process handle and table with
  their fields; and the loop that serves a client.
- **File trees** (`FileTree`, `FileWalk`, `FileOrder`, `FileCopy`): trees as finite
  maps from paths to nodes, the breadth-first listing, path order, and copying with
  an explicit frontier.
- **Uploads and type aliases** (`Uploads`, `TypeAliases`, `AliasScoping`): committing
  an upload in separate steps under any interleaving with other commits, the writer,
  stops and failures; alias evaluation over closures, and exactly when it agrees with
  lexical scoping.

Each loop of the source is a method proved against a function, and lemmas prove what
that function means; each protocol is a function from a state and a move to the next
state, and lemmas speak of every sequence of moves.

Where comments or names in the source say otherwise, the models follow the code:

- The hash count of a heading is kept modulo 256, so 257 hashes make a heading
  (`HeadingLines.LongHashRun`). Fences stop at an indentation of three, not four.
- A claim does not look at the deadline, and the reaper does not look again after
  sampling (`PtyProtocol.LateClaimWins`, `PtyProtocol.ReaperDoesNotRecheck`).
- A failing chunk loses the frames it completed before the failure, so what arrives of
  a malformed stream depends on its chunks (`Frames.FaultLosesFrame`).
- What the decoder holds back need not begin a frame, as it reads channel and length
  only once the header is whole: the byte 9 is held back (`Leftovers.StrayByteIsHeld`).
  It begins one exactly when its bytes are admissible (`Leftovers.LeftoverExactly`).
- An upload id may end in slashes and dots (`Uploads.OneName`). A commit whose last
  step fails reports an error although the upload is placed (`Uploads.Reports`).
- An unfolded alias sees the bindings of the reference, and a binding also replaces a
  type parameter of the same name inside the alias, so the result can differ from
  lexical scoping (`AliasScoping.LeakyDiffers`, `AliasScoping.RebindingDiffers`).
- A direct answer agrees with the frame stream only for output that survives as text
  (`Results.DirectDelivers`).

## Model

| member | source | states |
|---|---|---|
| `Slugs.Slugify` | crates/dotagents/src/skill/markdown.rs:445-469 | the slug is the lower-cased words of the text joined by hyphens, `section` without words, with the first free number when that is taken |
| `Slugs.JoinedSnoc` | crates/dotagents/src/skill/markdown.rs:448-458 | one more character changes the joined words exactly as the pending-hyphen loop changes its buffer |
| `Slugs.SuffixBound` | crates/dotagents/src/skill/markdown.rs:465-468 | when the base is taken and the first `k` numbered candidates are too, more than `k` slugs are taken; so the search ends |
| `Slugs.Search` | crates/dotagents/src/skill/markdown.rs:465-468 | the number found is the first whose slug is free, and at most the number of slugs taken |
| `Slugs.SlugIsFree` | crates/dotagents/src/skill/markdown.rs:462-468 | the slug is free; it is the base as long as that is free, and otherwise its smallest free number, which is at most the number of slugs taken |
| `Slugs.SlugExamples` | crates/dotagents/src/skill/markdown.rs:459-468 | a text without a word gets `section`, and a second heading of the same text the slug with `-1` behind |
| `Headings.ScanHeadings` | crates/dotagents/src/skill/markdown.rs:306-383 | the loop with its offset, fence and candidate finds exactly the headings of the line-by-line run |
| `Headings.ScanIsSound` | crates/dotagents/src/skill/markdown.rs:306-383 | in every text heading ranges are nonempty, ordered, disjoint and inside the text, levels are 1 to 6, and slugs are distinct |
| `Headings.ClosesExactly` | crates/dotagents/src/skill/markdown.rs:320-328 | a line closes a fence exactly when it is a run of the marker at least as long as the one that opened it, blanks before and after, at most three bytes of them before |
| `Headings.FencedTextIsInert` | crates/dotagents/src/skill/markdown.rs:320-344 | exchanging lines inside a fence for as many characters of lines that are no such run leaves every heading, and none touches the block; a block that ends the text may end within a line |
| `HeadingLines.AtxHeading` | crates/dotagents/src/skill/markdown.rs:348-356 | hashes that something follows are a heading exactly when indented by at most three, followed by a space or tab, and 1 to 6 modulo 256; blanks around the text and closing hashes, those that touch the text included, are cut off |
| `HeadingLines.BareHeading` | crates/dotagents/src/skill/markdown.rs:348-356 | a bare run of hashes is a heading without a text under the same conditions on indentation and count |
| `HeadingLines.LongHashRun` | crates/dotagents/src/skill/markdown.rs:349-352 | seven hashes are no heading, 257 or 513 hashes are one of level 1 |
| `HeadingLines.FenceRule` | crates/dotagents/src/skill/markdown.rs:320-344 | which run of backquotes or tildes opens a fence, and exactly which runs close it |
| `HeadingLines.FencedBlock` | crates/dotagents/src/skill/markdown.rs:320-344 | behind an opening line the same holds for every block without a line that is a run of its marker, as long at least, between blanks |
| `HeadingLines.SetextHeading` | crates/dotagents/src/skill/markdown.rs:357-378 | a line that is neither fence nor heading, a list item included, with an underline right below is one heading over both lines with the trimmed text; a blank line between prevents it |
| `HeadingLines.PlainStart` | crates/dotagents/src/skill/markdown.rs:331-361 | a line that starts with no hash, equals sign, hyphen, backquote or tilde is neither fence nor heading |
| `HeadingLines.Underline` | crates/dotagents/src/skill/markdown.rs:357-378 | a run of equals signs or hyphens makes a heading of the candidate line exactly when only blanks follow it and it is indented by at most three, and never opens a fence |
| `HeadingLines.RenderedScan` | crates/dotagents/src/skill/markdown.rs:306-383 | writing a list of headings out as text and scanning it gives the list back |
| `Sections.BuildTree` | crates/dotagents/src/skill/markdown.rs:388-441 | the stack of open sections builds the forest in which each heading owns the run of deeper headings after it |
| `Sections.PopKeeps` | crates/dotagents/src/skill/markdown.rs:414-421 | closing the top section at a heading that is no deeper, or at the end, keeps the forest the stack stands for |
| `Sections.PushKeeps` | crates/dotagents/src/skill/markdown.rs:422-429 | opening a section for the next, deeper heading keeps that forest |
| `Outline.Walk.constructor` | crates/dotagents/src/skill/markdown.rs:235-237 | the initial stack has the whole preorder of the sections ahead of it |
| `Outline.Walk.Next` | crates/dotagents/src/skill/markdown.rs:287-293 | each call takes the next item of the preorder, and nothing once it is exhausted |
| `Outline.WalkListsHeadings` | crates/dotagents/src/skill/markdown.rs:280-294 | the walk shows every heading once and in order; its parent is the nearest earlier heading of smaller level and its depth the number of its ancestors |
| `Outline.ForestFalls` | crates/dotagents/src/skill/markdown.rs:388-441 | sibling levels never increase and subsections are strictly deeper |
| `Documents.Parse` | crates/dotagents/src/skill/markdown.rs:210-216 | scanning, the preamble up to the first heading, and the tree |
| `Documents.DocumentTiles` | crates/dotagents/src/skill/markdown.rs:210-216 | preamble and sections tile the source: heading lines, body and subsections follow each other without gap or overlap, and together are the text |
| `Documents.DocumentLists` | crates/dotagents/src/skill/markdown.rs:235-237 | the outline of a parsed text lists the scanned headings, with falling sibling levels |
| `Documents.Find` | crates/dotagents/src/skill/markdown.rs:239-241 | the first section of the walk with the slug, if any |
| `Documents.FindFindsIt` | crates/dotagents/src/skill/markdown.rs:239-241 | searching the slug of any section of a document finds that very section |
| `Documents.FoundExactly` | crates/dotagents/src/skill/markdown.rs:239-241 | a search finds a section exactly when one has the slug, and then one that has |
| `Frames.Encode` | crates/sandbox-toolkit/src/exec/frame.rs:39-54 | the loop over chunks writes one frame per piece of at most the limit |
| `Frames.WireFormat` | crates/sandbox-toolkit/src/exec/frame.rs:14-54 | the bytes of a frame: 1, 2 or 3 for the channel, four bytes of length with the highest first, the payload; nothing for empty output |
| `Frames.ChunksFit` | crates/sandbox-toolkit/src/exec/frame.rs:47 | pieces are nonempty, within the limit, and concatenate to the payload |
| `Statuses.JsonIsValid` | crates/sandbox-toolkit/src/exec/frame.rs:25-37 | the compact JSON of any status with a 32-bit code is nonempty, within the limit and read back as that status, so there is a codec as the theorems on runs ask for |
| `Frames.Concat` | packages/sandbox-toolkit/src/internal/process.ts:139-150 | the filled buffer is the concatenation of the chunks |
| `Frames.DecodeChunk` | packages/sandbox-toolkit/src/internal/process.ts:166-217 | the loop over the buffer gives what the buffer decodes to frame by frame |
| `Frames.Decoder.Feed` | packages/sandbox-toolkit/src/internal/process.ts:234-244 | the state cell moves only when the chunk decodes |
| `Frames.Decoder.DecodeStream` | packages/sandbox-toolkit/src/internal/process.ts:224-256 | frames are delivered chunk by chunk; a body fails with those delivered so far, or at its end without a status |
| `Frames.StreamedVerdict` | packages/sandbox-toolkit/src/internal/process.ts:224-256 | whether and why a stream fails, and all frames of one whose chunks decode, do not depend on the chunks |
| `Frames.FailureDelivers` | packages/sandbox-toolkit/src/internal/process.ts:231-244 | when chunk `k` is the first to fail, exactly the frames of the chunks before it are delivered; these are all the stream completes before its fault exactly when chunk `k` completes none |
| `Frames.FaultLosesFrame` | packages/sandbox-toolkit/src/internal/process.ts:180-209 | a frame and a fault in one chunk deliver nothing, in two chunks the frame |
| `Frames.MalformedFails` | packages/sandbox-toolkit/src/internal/process.ts:176-199 | behind any output and however cut, an unknown channel, a length over the limit or an unreadable status fails the stream with that fault, a wrong channel before a wrong length |
| `Frames.ChunkingIsIrrelevant` | packages/sandbox-toolkit/src/internal/process.ts:166-256 | for arbitrary bytes every split gives the same frames and final state, or the same failure, as one piece |
| `Frames.StepRests` | packages/sandbox-toolkit/src/internal/process.ts:173-216 | what is left over holds no whole frame and is shorter than header plus limit |
| `Leftovers.LeftoverExactly` | packages/sandbox-toolkit/src/internal/process.ts:173-216 | after any chunks what is left over is the beginning of a frame exactly when its bytes, as far as they go, name a known channel and a length within the limit |
| `Leftovers.StrayByteIsHeld` | packages/sandbox-toolkit/src/internal/process.ts:176-182 | a single byte 9 is held back although it begins no frame |
| `Leftovers.CompletesExactly` | packages/sandbox-toolkit/src/internal/process.ts:176-209 | more bytes can bring what is left over to a whole frame exactly under that condition |
| `Leftovers.RunLeavesFrameStarts` | packages/sandbox-toolkit/src/internal/process.ts:166-217 | on the way through an encoded run, however cut, what is left over is always the beginning of a frame |
| `Frames.RoundTrip` | packages/sandbox-toolkit/src/internal/process.ts:166-256 | encoding a run that ends in its status, cutting the bytes anywhere and decoding gives the run back and ends in `done` |
| `Frames.NoStatusFails` | packages/sandbox-toolkit/src/internal/process.ts:245-253 | a run without a status fails when its stream ends, after all its output was delivered |
| `Frames.SecondStatusFails` | packages/sandbox-toolkit/src/internal/process.ts:206-208 | anything after the status fails the stream |
| `Lines.TakeLines` | packages/sandbox-toolkit/src/internal/process.ts:72-93 | the scan gives the terminated lines and the tail of the buffered text |
| `Lines.TakenCarries` | packages/sandbox-toolkit/src/internal/process.ts:85-92 | the carried buffer holds no `\n`, and `\r` only as its last character |
| `Lines.TakenSplits` | packages/sandbox-toolkit/src/internal/process.ts:72-93 | lines taken early are the first lines of the text whatever follows |
| `Lines.StreamedIsSplit` | packages/sandbox-toolkit/src/internal/process.ts:72-101 | any chunks, then the end, give the lines of the whole text split at `\n`, `\r\n` and lone `\r` |
| `Lines.SplitTerminated` | packages/sandbox-toolkit/src/internal/process.ts:72-101 | lines written with any one of the separators come back, and the last separator adds none |
| `Lines.SplitUnterminated` | packages/sandbox-toolkit/src/internal/process.ts:72-101 | a last line that nothing terminates comes back too |
| `Lines.SplitKeeps` | packages/sandbox-toolkit/src/internal/process.ts:72-101 | for every text the lines hold no line end, and together they are the text without its line ends |
| `Pipeline.EverySchedule` | crates/sandbox-toolkit/src/exec/runtime.rs:63-107 | in every schedule the channel keeps its bound, nothing read is lost, duplicated or reordered, and one status follows all output |
| `Pipeline.EndsFull` | crates/sandbox-toolkit/src/exec/http.rs:39-92 | a direct answer and a stream that closes have both seen all reads of both pipes in order, then the status |
| `Pipeline.NeverStuck` | crates/sandbox-toolkit/src/exec/runtime.rs:63-107 | while the client is there some task can move, and a collector never meets the end of the channel before the status |
| `Pipeline.SchedulesEnd` | crates/sandbox-toolkit/src/exec/runtime.rs:63-107 | every schedule is shorter than a bound on the work, so every run ends |
| `Pipeline.RunsEndWell` | crates/sandbox-toolkit/src/exec/http.rs:39-92 | a run of a client that stays, once only a disconnect could continue it, has answered or closed with the whole output and the status |
| `Pipeline.AnsweredInTime` | crates/sandbox-toolkit/src/exec/http.rs:42-92 | a request that waits, while neither its deadline nor a disconnect comes, collects until it has answered, and once nothing else can happen it has answered with the whole run |
| `Pipeline.AnsweredOnlyInTime` | crates/sandbox-toolkit/src/exec/http.rs:42-64 | without a wait, or once the deadline came, a request never collects or answers directly |
| `Pipeline.ReadsAre` | crates/sandbox-toolkit/src/exec/runtime.rs:87-107 | what a pipe gives are the bytes of its reads, in order, interruptions left out, up to the first empty or broken read |
| `Pipeline.PumpAll` | crates/sandbox-toolkit/src/exec/runtime.rs:87-107 | a pump sends the chunks of its pipe in order as far as the receiver takes them, past interruptions and up to the end or an error |
| `Results.Collect` | crates/sandbox-toolkit/src/exec/http.rs:66-92 | events are consumed up to the status, the deadline or the end, with a result exactly when the status came |
| `Results.Direct` | crates/sandbox-toolkit/src/exec/http.rs:94-113 | both outputs concatenated in order and converted to text, and the status if one was consumed |
| `Results.LastStatusFound` | crates/sandbox-toolkit/src/exec/http.rs:107 | there is a result exactly when a status was consumed |
| `Results.DirectDelivers` | crates/sandbox-toolkit/src/exec/http.rs:66-113 | a direct answer is possible exactly when the status was consumed, and gives the outcome of the child exactly when both outputs survive as text or the child was signaled |
| `Results.UpgradedDelivers` | packages/sandbox-toolkit/src/internal/process.ts:329-342 | in every schedule and for every cut of the response a stream that closes gives that same outcome |
| `Results.FailedOutcome` | packages/sandbox-toolkit/src/internal/process.ts:224-279 | a stream that fails is never a result: the caller gets the failure, or the signal of a status delivered before |
| `Results.CutOffFails` | packages/sandbox-toolkit/src/internal/process.ts:245-256 | output without a status, and an empty response, is a failure |
| `Results.FramesKeepBytes` | crates/sandbox-toolkit/src/exec/frame.rs:47-51 | splitting output into frames keeps the bytes of each stream |
| `Templates.Parse` | crates/dotagents/src/template.rs:79-109 | the search for `${` gives the left-to-right segmentation of the text |
| `Templates.ParsedSpells` | crates/dotagents/src/template.rs:79-109 | spelling the segments back gives the raw text |
| `Templates.ParsedCanonical` | crates/dotagents/src/template.rs:79-109 | literals are nonempty, contain no placeholder and never touch |
| `Templates.CanonicalRoundTrip` | crates/dotagents/src/template.rs:79-109 | parsing the spelling of any canonical list returns that list |
| `Templates.Expand` | crates/dotagents/src/template.rs:125-134 | concatenates literals and anchor paths in order |
| `Templates.ExpansionSubstitutes` | crates/dotagents/src/template.rs:123-134 | expansion is one left-to-right substitution whose inserted text is not looked at again |
| `Templates.ExpansionOf` | crates/dotagents/src/template.rs:24-55 | each of the two spellings is replaced by its own path, wherever it is first in a text, and what is before it stays |
| `Templates.PlainExpands` | crates/dotagents/src/template.rs:70-134 | a text in which neither spelling occurs, such as one with `$PLUGIN_ROOT` or `${HOME}`, stays as it is |
| `Paths.LexicallyContained` | crates/dotagents/src/path.rs:121-136 | the counter accepts exactly the paths no prefix of which has more `..` than names |
| `Paths.Resolve` | crates/dotagents/src/path.rs:94-104 | the loop is the push/pop walk over the components |
| `Paths.WalkLaws` | crates/dotagents/src/path.rs:94-104 | names are walked down in order; an empty part or a dot can be left out, and so can a name with `..` behind it |
| `Paths.PartsJoin` | crates/dotagents/src/path.rs:96 | the parts hold no slash, and joined by slashes are the path |
| `Paths.ContainedIffStaysBelow` | crates/dotagents/src/path.rs:94-136 | the counter accepts a path exactly when the walk never pops a component of the root |
| `Paths.ContainedResolves` | crates/dotagents/src/path.rs:94-136 | an accepted path resolves to the root followed by names free of `.` and `..` |
| `Paths.CommandForms` | crates/dotagents/src/mcp/mod.rs:489-500 | what becomes of every command and relative path, the errors included: `./` and a walk that stays below the root, or a nonempty name without `/` and `\` |
| `Paths.CwdForms` | crates/dotagents/src/mcp/mod.rs:503-522 | a working directory is accepted exactly in the three permitted forms, and otherwise refused by its text |
| `Paths.AcceptedResolve` | crates/dotagents/src/mcp/mod.rs:489-522 | every accepted relative path, bundled command and working directory resolves to its anchor followed by names only |
| `PtyProtocol.EverySchedule` | crates/sandbox-toolkit/src/pty/session.rs:84-148 | in every schedule at most one claim gets the attachment, with the scope and not if it started after the reclaim; the kill runs at most once; only reclaimed sessions leave the table |
| `PtyProtocol.StagesInOrder` | crates/sandbox-toolkit/src/pty/session.rs:31-36 | the stage goes from pending to attached to reclaimed, or straight to reclaimed, and never back |
| `PtyProtocol.ReclaimedIsReleased` | crates/sandbox-toolkit/src/pty/session.rs:130-148 | once no reclaim is under way, a reclaimed session holds no attachment, is stopped and was killed exactly once |
| `PtyProtocol.LeaverReclaims` | crates/sandbox-toolkit/src/pty/session.rs:130-148 | once a client has left and the reclaims begun have taken their steps, of which each has one until it is done, the session is reclaimed, released and killed |
| `PtyProtocol.UnclaimedExpires` | crates/sandbox-toolkit/src/pty/sessions.rs:57-73 | a session nobody claims is not sampled before its deadline; from then on the reaper reclaims it, kills its process once and forgets it |
| `PtyProtocol.DroppedIsUnheld` | crates/sandbox-toolkit/src/pty/session.rs:31-36 | a session is dropped only after it left the table, every claim is over, every reclaim done, and its process killed once |
| `PtyProtocol.ClaimIgnoresDeadline` | crates/sandbox-toolkit/src/pty/session.rs:84-96 | a claim passes exactly when the scope matches and the session is pending |
| `PtyProtocol.LateClaimWins` | crates/sandbox-toolkit/src/pty/session.rs:84-99 | a claim wins however long the deadline has passed |
| `PtyProtocol.ReaperDoesNotRecheck` | crates/sandbox-toolkit/src/pty/sessions.rs:59-72 | a sampled session is reclaimed even when it was claimed in between and is no longer expired |
| `PtyProtocol.ReapWasExpired` | crates/sandbox-toolkit/src/pty/sessions.rs:63-72 | in every schedule a session about to be reaped carries the deadline that was sampled as passed or a renewed one; until an idle time has gone by it is expired exactly in the first case |
| `PtyProtocol.ReapIsDue` | crates/sandbox-toolkit/src/pty/sessions.rs:59-72 | from sampling to reclaiming, whatever comes between, a session is still due exactly when nothing renewed it since or the last renewal is an idle time ago |
| `PtyProtocol.DeadlineAfter` | crates/sandbox-toolkit/src/pty/session.rs:84-108 | after any run the deadline is the old one, or an idle time after the last claim that passed or activity |
| `PtyProtocol.ReclaimAlone` | crates/sandbox-toolkit/src/pty/session.rs:130-148 | the sections of a reclaim with nothing in between do everything once, or nothing |
| `PtySession.ClientRoundTrip` | crates/sandbox-toolkit/src/pty/message.rs:12-54 | input and sizes come back from their messages, input over the limit and other channels are refused |
| `PtySession.MessagesCarryOutput` | crates/sandbox-toolkit/src/pty/message.rs:25-41 | the messages for any output chunks are within the limit and carry exactly that output |
| `PtySession.TerminalTells` | crates/sandbox-toolkit/src/pty/session.rs:196-232 | the terminal message is on the error channel, within the limit, and parses to the signal of the process or else its exit code, -1 when the exit channel closed without one |
| `PtySession.ProcessHandle.RequestTerminate` | crates/pty/src/process.rs:219-225 | the killer is taken, so the kill runs once |
| `PtySession.ProcessHandle.Terminate` | crates/pty/src/process.rs:239-263 | one kill, one abort of every helper, and the waiter let go without an abort, however often it is called |
| `PtySession.Session.Claim` | crates/sandbox-toolkit/src/pty/session.rs:84-99 | who gets the attachment and what becomes of the stage |
| `PtySession.Session.Apply` | crates/sandbox-toolkit/src/pty/session.rs:205-222 | a message counts as activity, and reaches the process exactly when it decodes |
| `PtySession.Session.Touch` | crates/sandbox-toolkit/src/pty/session.rs:101-108 | only an attached session gets a new deadline |
| `PtySession.Session.Reclaim` | crates/sandbox-toolkit/src/pty/session.rs:130-148 | everything is released the first time and left alone afterwards |
| `PtySession.Session.Run` | crates/sandbox-toolkit/src/pty/session.rs:150-222 | the messages sent are the output in order, each logged with whether another task had reclaimed the session by then, then at most one terminal message, sent after all output ended and with the session reclaimed; then the socket is closed; requests reach the process in order; when the loop stops; the deadline until then |
| `PtySession.LogIsOutput` | crates/sandbox-toolkit/src/pty/session.rs:173-181 | the messages of that log are those of the output, and none sent before the session was reclaimed comes after one sent afterwards |
| `PtySession.EndsHow` | crates/sandbox-toolkit/src/pty/session.rs:158-193 | what ends the loop: a reclaim, the end or a close of the socket, a message that does not decode, and the exit status once the output has ended |
| `PtySession.Session.SendAll` | crates/sandbox-toolkit/src/pty/session.rs:176-180 | messages go out in order, all of them unless the peer is gone |
| `PtySession.Sessions.Create` | crates/sandbox-toolkit/src/pty/sessions.rs:29-37 | a new id that no session in the table has |
| `PtySession.Sessions.Attach` | crates/sandbox-toolkit/src/pty/sessions.rs:39-44 | attaches exactly to a session that is there, of the caller, pending and unclaimed |
| `PtySession.Sessions.Reap` | crates/sandbox-toolkit/src/pty/sessions.rs:57-73 | one tick drops the sessions reclaimed before, reclaims the expired ones and leaves the rest alone |
| `PtySession.IdsDiffer` | crates/sandbox-toolkit/src/pty/sessions.rs:78-83 | two serial numbers never make the same id |
| `FileTree.LinkReplaced` | crates/sandbox-toolkit/src/fs/http.rs:454-457 | wherever a link is met on the way of a path its target takes its place, read from the file system root, as long as links may be followed |
| `FileTree.LinkLeads` | crates/sandbox-toolkit/src/fs/paths.rs:121-130 | a link to an entry leads there and stands for what is there |
| `FileWalk.Walk` | crates/sandbox-toolkit/src/fs/http.rs:441-484 | ends on every finite tree with each entry at depth 1 to the limit exactly once; links are listed and not entered, except at the root and on the way to it, where they are looked through |
| `FileWalk.ThroughShows` | crates/sandbox-toolkit/src/fs/http.rs:441-473 | every directory below the root has exactly the entries that the system finds at the paths in it, however many links lead to the root |
| `FileWalk.LinkedRoot` | crates/sandbox-toolkit/src/fs/http.rs:441-484 | below a root that is a link to a directory there is exactly what is below that directory, moved under the root, to every depth |
| `FileWalk.Visit` | crates/sandbox-toolkit/src/fs/http.rs:454-473 | one directory adds its entries to the result and its directories to the next level |
| `FileWalk.ExcludedBelow` | crates/sandbox-toolkit/src/fs/http.rs:509-519 | what lies below an excluded path is excluded |
| `FileWalk.ExcludedFrom` | crates/sandbox-toolkit/src/fs/http.rs:509-519 | an entry is excluded exactly when its own path matches or its parent is excluded |
| `FileWalk.Glob` | crates/sandbox-toolkit/src/fs/http.rs:234-240 | exactly the entries below the root that match and are not excluded |
| `FileOrder.ListEntries` | crates/sandbox-toolkit/src/fs/http.rs:210-213 | the listing in path order |
| `FileOrder.GlobEntries` | crates/sandbox-toolkit/src/fs/http.rs:227-241 | the matches in path order |
| `FileOrder.AscendingUnique` | crates/sandbox-toolkit/src/fs/http.rs:213-241 | an answer in path order is determined by its members, so not by the order directories are read in |
| `FileOrder.PathOrder` | crates/sandbox-toolkit/src/fs/http.rs:213-241 | paths are ordered by the first component that differs, names by the first character that differs, and a beginning comes first |
| `FileCopy.Disk.CreateDirAll` | crates/sandbox-toolkit/src/fs/paths.rs:132-134 | makes the missing directories, fails where something else is in the way |
| `FileCopy.Disk.CopyOnto` | crates/sandbox-toolkit/src/fs/paths.rs:118-149 | ends for disjoint trees, succeeds exactly when the source with its links to files followed fits, and then the tree is the old one overlaid with it; nothing ever changes but the destination, the way to it, and below it what the source has |
| `FileCopy.LeftPop` | crates/sandbox-toolkit/src/fs/paths.rs:121-130 | popping a file leaves the frontier covering the rest of the source |
| `FileCopy.LeftOpen` | crates/sandbox-toolkit/src/fs/paths.rs:132-145 | replacing a directory by its entries, in whatever order, leaves the frontier covering all but that directory |
| `FileCopy.CopiedTree` | crates/sandbox-toolkit/src/fs/paths.rs:114-149 | the source is unchanged, the destination has what each of its paths stands for, the rest of the destination is kept, and the tree is well formed |
| `FileCopy.LinkRead` | crates/sandbox-toolkit/src/fs/paths.rs:122-130 | a link of the source to an entry is read as what it leads to, so a link to a file keeps no copy from going through |
| `FileCopy.CopiedLink` | crates/sandbox-toolkit/src/fs/paths.rs:118-130 | after a copy what a link of the source leads to is in the place of the link |
| `Uploads.EverySchedule` | crates/sandbox-toolkit/src/tus/uploads.rs:33-52 | in every interleaving with stops and failures one destination at most gets the upload, whole and of the declared size; later commits never succeed |
| `Uploads.PlacedForGood` | crates/sandbox-toolkit/src/tus/uploads.rs:33-52 | what was placed and declared never changes afterwards |
| `Uploads.Uploads.Commit` | crates/sandbox-toolkit/src/tus/uploads.rs:33-52 | what a commit reports and changes for every combination of failures |
| `Uploads.LastStep` | crates/sandbox-toolkit/src/tus/uploads.rs:49-50 | a commit whose rename went through succeeds exactly when the info file is still there and is removed; the upload is placed either way |
| `Uploads.AloneCommits` | crates/sandbox-toolkit/src/tus/uploads.rs:29-52 | in the protocol a commit that runs alone does what the method does, so a failed rename can be retried |
| `Uploads.AloneIsSchedule` | crates/sandbox-toolkit/src/tus/uploads.rs:33-52 | running alone is one of the schedules |
| `Uploads.AcceptedIdsStay` | crates/sandbox-toolkit/src/tus/uploads.rs:57-68 | an accepted id names one entry of the upload directory, and its info file stays in it |
| `Uploads.AcceptedIds` | crates/sandbox-toolkit/src/tus/uploads.rs:57-68 | which ids are accepted: a name without a slash other than a dot or two, and an accepted id with a slash and nothing or a dot behind |
| `TypeAliases.NearestTypeBindings` | tools/oxlint/anti-slop/shared/type-alias-resolution.ts:142-161 | exactly the candidates at the least distance, in order |
| `TypeAliases.LeastIsLeast` | tools/oxlint/anti-slop/shared/type-alias-resolution.ts:148-160 | the distance kept is one of a candidate and none is smaller |
| `TypeAliases.VisibleExactly` | tools/oxlint/anti-slop/shared/type-alias-resolution.ts:163-172 | an alias is visible exactly when no type parameter in scope has its name and the one nearest declaration of the name declares it |
| `TypeAliases.AliasSubstitutions` | tools/oxlint/anti-slop/shared/type-alias-resolution.ts:190-209 | the loop binds the parameters one by one on top of the bindings at the reference |
| `TypeAliases.AliasBindings` | tools/oxlint/anti-slop/shared/type-alias-resolution.ts:190-209 | it fails exactly when a parameter has neither argument nor default; a parameter has its argument, read at the reference, or its default, read where those before it are bound; other bindings stay |
| `TypeAliases.UnfoldsExactly` | tools/oxlint/anti-slop/shared/type-alias-resolution.ts:212-250 | exactly when an alias is unfolded, a binding followed, or the type handed to the matcher, and with which bindings and aliases in resolution it goes on |
| `TypeAliases.ChainsStop` | tools/oxlint/anti-slop/shared/type-alias-resolution.ts:217-250 | no chain of evaluations goes on for ever, for cyclic aliases and any matcher that asks about parts |
| `TypeAliases.UnfoldingsBounded` | tools/oxlint/anti-slop/shared/type-alias-resolution.ts:233-241 | along a chain every alias is unfolded at most once |
| `AliasScoping.ShadowedIsShown` | tools/oxlint/anti-slop/shared/type-alias-resolution.ts:169-171 | a reference whose name a type parameter shadows and no binding replaces is itself shown to every matcher |
| `AliasScoping.OpaqueIsShown` | tools/oxlint/anti-slop/shared/type-alias-resolution.ts:212-250 | a type none of whose names is bound or declared as an alias is shown as it is written |
| `AliasScoping.LexicalExactly` | tools/oxlint/anti-slop/shared/type-alias-resolution.ts:190-250 | for any type in any program, every matcher has the result of lexical scoping exactly when each substitution that lexically is none shows the same types as the reference |
| `AliasScoping.StrayGuard` | tools/oxlint/anti-slop/shared/type-alias-resolution.ts:221-231 | where a stray name is rebound or means nothing, it does no harm only when the binding leads back to that very reference |
| `AliasScoping.RulesLexicalExactly` | tools/oxlint/anti-slop/shared/type-alias-resolution.ts:212-250 | the same as LexicalExactly for matchers that answer true or false, where no type is shown twice on a branch |
| `AliasScoping.TextShownTwice` | tools/oxlint/anti-slop/shared/type-alias-resolution.ts:212-250 | a rule that starts from the text of a recursive alias is shown that text twice on a branch |
| `AliasScoping.MatchesLexically` | tools/oxlint/anti-slop/shared/type-alias-resolution.ts:190-250 | when no alias mentions a parameter of another, nor one of its own under a name its text binds anew, every matcher has the result of lexical scoping |
| `AliasScoping.LeakyDiffers` | tools/oxlint/anti-slop/shared/type-alias-resolution.ts:197 | a program where a parameter leaks into another alias and the two differ |
| `AliasScoping.RebindingDiffers` | tools/oxlint/anti-slop/shared/type-alias-resolution.ts:221-231 | a program where an argument replaces a type parameter of a function type and the two differ |

## Left out

- Headings.ScanHeadings: positions count characters instead of bytes; only the indentation, which the code compares with three, counts UTF-8 bytes.
- Slugs.Slugify: which characters are alphanumeric and how they are lower-cased are parameters, and the number is unbounded where the code counts in 32 bits.
- Frames.RoundTrip: the JSON of a status with a 32-bit code is a pair of functions, with a nonempty text within the limit that parses back, as `Statuses` has one. The client's parser takes other spellings too, and numbers that are no 32-bit integers, which no server sends.
- Results.Direct: the conversions between bytes and text are parameters; that UTF-8 survives them is not part of this model.
- Pipeline.EverySchedule: the pumps, the waiter and the consumer are protocol moves rather than methods, because they run concurrently; `PumpAll` and `Collect` are the loops taken alone. Clocks and `select!` become any order of moves, and a read is as long as it likes.
- Paths.LexicallyContained: the depth is unbounded where the code counts in 32 bits.
- PtyProtocol.EverySchedule: time is a counter of seconds, retaining and sampling are separate moves though the code does both under the table's lock, and a poisoned lock is not modelled.
- PtySession.Session.Run: requests of a client are noted in order; whether the process still takes them, which the code ignores, is not modelled. A reclaim by another task comes between two things the loop takes up, never between two messages of one chunk.
- PtySession.Sessions.Create: the serial number does not wrap at 64 bits.
- FileWalk.Walk: the target of a link is a path from the file system root, and as on Linux at most 40 links are followed on the way of a path; permissions are not modelled.
- FileOrder.ListEntries: pages are cut from the result by the code, which is not modelled.
- FileCopy.Disk.CreateDirAll: a link to a directory on the way counts as in the way, where the system call follows it; the copy rules links out there.
- FileCopy.Disk.CopyOnto: source and destination are disjoint, no place that the copy may write is a link, and links of the source lead to files at none of those places or to nothing, as overlapping trees need not end and links alias; a source that is only reached through a linked directory counts as missing; permission bits, kinds of error and failures of the disk other than a misplaced or missing entry are not modelled.
- Uploads.EverySchedule: the writer leaves a finished upload alone except to discard it, and the destination is not one of the two staged files. The info file is read whole, a torn read being one of the failures.
- AliasScoping.RulesLexicalExactly: that no type is shown twice on a branch is a condition of the converse for matchers that answer true or false, and rules can meet a branch without it (`AliasScoping.TextShownTwice`); the converse for matchers of any result has no condition.
- TypeAliases.ChainsStop: a matcher is a function of a type and the answers for its parts, all of which are computed; the code asks for them one at a time, which makes fewer calls. Collecting bindings from the syntax tree is not modelled; scopes are given by distances, and the type parameters in scope at a use by two functions.
- Following a path of heading texts, links and their classification, hashing and formatting of documents.
- HTTP routing and status codes, process spawning, the tus proxy, the watcher, manifests and MCP documents beyond commands and working directories.
