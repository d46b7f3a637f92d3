# Dojo battle rooms, gamification helpers and sheet seeding — a Dafny model

This project models three parts of the Dojo coding-battle platform and proves
properties of them:

- **The battle-room server** (`apps/server/src/index.ts`). It keeps every room
  in memory, plus a registry of who is online. Players create and join rooms
  of at most four, mark themselves ready, chat, suggest problems and vote on
  them. The host locks the winning problem and starts the battle. The first
  player to report a solve wins. Leaving or disconnecting removes a player,
  and a room that becomes empty is deleted.
  - `RoomStore` (in `server.dfy`) is a class with the `rooms` and `online`
    maps as fields. Each socket handler is a method that reassigns those maps.
    It returns the acknowledgement passed to the client's callback and the
    events it broadcasts, in the order they are emitted.
  - The `setTimeout` of `room:start` is a FIFO queue of pending timers, and
    `FireStartTimer` runs the oldest one.
  - A room keeps a value for its fields, plus an `instance` number (not present
    in the source). The timer closes over the room *object*, so a timer must
    never act on a later room that happens to reuse the same code; the
    instance number is how the model tells the two apart.
- **The gamification helpers of the web client** (`apps/web/lib/utils.ts`):
  - XP thresholds and the level they imply.
  - The `m:ss` / `h:mm:ss` duration format.
  - Random room codes.
  - The difficulty and league-tier colour tables.
- **The pure rules of the sheet seeder** (`packages/database/prisma/seed.ts`):
  - The keyword classifier that guesses a problem's difficulty.
  - The filter that skips problems without a usable slug.
  - The URL cleaning.
  - The row written for each problem.

Files:

- `wrappers.dfy`: `Option`.
- `text.dfy`: the JavaScript string operations the code relies on:
  - ASCII `toLowerCase`/`toUpperCase`;
  - `includes` and `split` (with the search for the separator that `split` performs);
  - `toString` on non-negative integers;
  - `padStart`.
- `utils.dfy`: the web helpers.
- `seed.dfy`: the seeder.
- `rooms.dfy`: the room data model and participant-list operations.
- `voting.dfy`: suggestions, ballots and the winner.
- `ranking.dfy`: the final standings.
- `server.dfy`: the store and its handlers.

Invariants:

- Every handler keeps `RoomStore.Valid()`, which requires every stored room to:
  - be filed under its own code;
  - have between one and four participants;
  - have distinct participant ids;
  - have distinct suggestion ids.
- Every handler also ensures `Evolves`, which requires a stored room to:
  - keep its instance;
  - keep its chat as a prefix;
  - stay locked once its problem is locked.

Behaviour of the source that the model reproduces rather than corrects:

- **The status can go backwards.**
  - `room:start` does not check the room's status. A host can therefore move
    an `in_progress` or `finished` room back to `starting`.
  - A second pending timer can turn a `finished` room back into `in_progress`.
  - `Start` and `FireStartTimer` state exactly this.
- **A user can hold two ballots.**
  - `room:suggest-problem` auto-votes the proposer without removing their
    earlier vote. One user can then sit in two voter sets, and the total
    vote count exceeds the number of voters (`Voting.SuggestCanDoubleBallot`).
  - `room:vote-problem` clears all of the voter's votes first. It restores
    single ballots (`Voting.CastVote`, `Voting.CastVoteBallot`).
- **A vote for an unknown suggestion still erases the voter's ballot.** The
  votes are cleared before the suggestion lookup fails.
- **Suggestion ids can collide.** The id `sug-<ms>-<userId>` repeats when one
  user suggests twice in the same millisecond. `Map.set` then replaces the
  earlier suggestion in place (`Voting.Upsert`).
- **Disconnect does not hand the host role over** and posts no chat line,
  unlike `room:leave`.
- **The `null` result of `inferDifficulty` never happens.** The function is
  declared to return it, but every path returns a difficulty.

## Model

| member | source | states |
|---|---|---|
| `Text.ToLower` | apps/web/lib/utils.ts:96 | lower-cases exactly the ASCII capitals, position by position, and leaves no capital behind |
| `Text.ToUpper` | apps/server/src/index.ts:251 | upper-cases exactly the ASCII small letters, position by position, and leaves no small letter behind |
| `Text.LowerOfUpper` | packages/database/prisma/seed.ts:18-19 | lower-casing after upper-casing equals lower-casing the original |
| `Text.UpperOfLower` | apps/web/lib/utils.ts:128 | upper-casing after lower-casing equals upper-casing the original |
| `Text.LowerIdempotent` | packages/database/prisma/seed.ts:18-19 | lower-casing twice is lower-casing once |
| `Text.UpperIdempotent` | apps/server/src/index.ts:251 | upper-casing twice is upper-casing once |
| `Text.Contains` | packages/database/prisma/seed.ts:23-39 | `includes` is true exactly when the needle occurs at some index of the haystack |
| `Text.FirstIndex` | packages/database/prisma/seed.ts:100 | the separator search inside `split`: the first occurrence of the character, or -1 exactly when it is absent |
| `Text.Split` | packages/database/prisma/seed.ts:100 | `split` yields at least one piece; the first piece is a separator-free prefix; a string without the separator splits into itself |
| `Text.SplitJoin` | packages/database/prisma/seed.ts:100 | splitting `a + sep + b`, when `a` has no separator, yields `a` followed by the pieces of `b` |
| `Text.NatToString` | apps/web/lib/utils.ts:87 | `toString` gives decimal digits only, one digit exactly below ten, and no leading zero |
| `Text.ParseNatToString` | apps/web/lib/utils.ts:87 | reading the decimal rendering back gives the number |
| `Text.ParseNatLeadingZero` | apps/web/lib/utils.ts:87 | a `padStart` zero in front does not change the value read |
| `Text.PadStart` | apps/web/lib/utils.ts:87 | `padStart` reaches the width (or keeps a longer string), ends with the original and fills only with the pad character |
| `Utils.XpForLevel` | apps/web/lib/utils.ts:28-30 | the XP threshold of a level is a non-negative multiple of 100, and zero only for level 0 |
| `Utils.XpForLevelMonotone` | apps/web/lib/utils.ts:28-30 | higher levels need at least as much XP |
| `Utils.ISqrt` | apps/web/lib/utils.ts:36 | `floor(sqrt(n))`: the `r` with `r*r <= n < (r+1)*(r+1)` |
| `Utils.ISqrtUnique` | apps/web/lib/utils.ts:36 | that bracket determines the square root uniquely |
| `Utils.LevelFromXp` | apps/web/lib/utils.ts:35-37 | the level is at least 1 and its XP band contains the XP: `xpForLevel(level-1) <= xp < xpForLevel(level)` |
| `Utils.LevelFromXpZero` | apps/web/lib/utils.ts:35-37 | no XP means level 1 |
| `Utils.LevelFromXpUnique` | apps/web/lib/utils.ts:28-37 | `levelFromXp` inverts `xpForLevel`: the only level whose band contains the XP is the one returned |
| `Utils.LevelFromXpMonotone` | apps/web/lib/utils.ts:35-37 | more XP never lowers the level |
| `Utils.SplitDuration` | apps/web/lib/utils.ts:82-84 | hours, minutes and seconds recombine to the input, with minutes and seconds below 60 |
| `Utils.TwoDigitsFacts` | apps/web/lib/utils.ts:87 | a minute or second count pads to exactly two digits that read back as the count |
| `Utils.ParseLongForm` | apps/web/lib/utils.ts:87 | `h:mm:ss` splits into its three fields and reads back as `h*3600 + m*60 + s` |
| `Utils.ParseShortForm` | apps/web/lib/utils.ts:89 | `m:ss` splits into its two fields and reads back as `m*60 + s` |
| `Utils.FormatDuration` | apps/web/lib/utils.ts:81-90 | formatting loses nothing: parsing the formatted duration gives back the seconds; the `h:mm:ss` layout from one hour on and `m:ss` below is stated by `FormatDurationShape` |
| `Utils.FormatDurationShape` | apps/web/lib/utils.ts:81-89 | three fields from one hour on, two fields below an hour |
| `Utils.GenerateRoomCode` | apps/web/lib/utils.ts:53-60 | the loop builds the six-character code spelled by the random draws, every character from the 32-letter alphabet |
| `Utils.RoomCodeUnambiguous` | apps/web/lib/utils.ts:54 | a room code never contains I, O, 0 or 1 |
| `Utils.DifficultyColor` | apps/web/lib/utils.ts:95-106 | the gray fallback is returned exactly when the lower-cased name is not easy, medium or hard |
| `Utils.DifficultyBg` | apps/web/lib/utils.ts:111-122 | the gray background is returned exactly when the lower-cased name is not easy, medium or hard |
| `Utils.LeagueTierColor` | apps/web/lib/utils.ts:127-144 | gray exactly for SILVER and unknown tiers, after upper-casing |
| `Utils.DifficultyColorDistinct` | apps/web/lib/utils.ts:95-122 | the three difficulties get pairwise different text and background classes |
| `Utils.TierColorDistinct` | apps/web/lib/utils.ts:127-144 | the five coloured tiers get pairwise different classes |
| `Utils.DifficultyIgnoresCase` | apps/web/lib/utils.ts:96 | any capitalisation of a difficulty gives the same classes |
| `Utils.TierIgnoresCase` | apps/web/lib/utils.ts:128 | any capitalisation of a tier gives the same class |
| `Seed.InferDifficulty` | packages/database/prisma/seed.ts:17-46 | HARD exactly when a hard keyword occurs, ignoring case, in the title (or "hard" in the topic); EASY exactly when no hard keyword occurs and an easy keyword does (the hard test runs first) |
| `Seed.InferDifficultyMedium` | packages/database/prisma/seed.ts:44-45 | MEDIUM exactly when neither kind of keyword occurs, so the declared `null` never comes back |
| `Seed.InferDifficultyIgnoresCase` | packages/database/prisma/seed.ts:17-19 | the classification does not depend on letter case |
| `Seed.HardBeatsEasy` | packages/database/prisma/seed.ts:22-42 | a title with both "reverse" and "sudoku" is HARD: hard keywords take priority |
| `Seed.CleanUrl` | packages/database/prisma/seed.ts:100 | the cleaned URL is the URL cut just before its first `#` or `?`: a prefix with neither character, followed in the URL by one of them unless it is the whole URL |
| `Seed.CleanUrlIdempotent` | packages/database/prisma/seed.ts:100 | cleaning twice is cleaning once |
| `Seed.SheetEntry` | packages/database/prisma/seed.ts:92-128 | a problem is skipped exactly when its slug is missing or shorter than 2; otherwise the row carries the slug, the title, the cleaned URL, the platform, the topic, the step with an empty one turned into null, the inferred difficulty and the loop index as order |
| `Rooms.FindUser` | apps/server/src/index.ts:307 | `participants.get`: the position of the user's entry, absent exactly when the user is not a participant |
| `Rooms.RemoveUser` | apps/server/src/index.ts:526 | `participants.delete`: exactly the other participants remain; the list is unchanged when the user is absent; with distinct ids the result is the list with the user's one entry cut out, the others in join order |
| `Rooms.RemoveUserGone` | apps/server/src/index.ts:526 | after the delete the user is no longer a participant |
| `Rooms.RemoveUserUnique` | apps/server/src/index.ts:526 | with distinct ids the list shrinks by exactly one for a present user and stays free of duplicates; removing the first participant leaves the rest in order |
| `Rooms.RemoveSocket` | apps/server/src/index.ts:563-571 | exactly the participants on other connections remain, as a subsequence of the list (join order kept), and distinct ids stay distinct |
| `Rooms.RemoveSocketIdempotent` | apps/server/src/index.ts:563-571 | dropping a connection twice is dropping it once |
| `Rooms.SocketUsers` | apps/server/src/index.ts:564-566 | exactly the ids of the participants on the connection |
| `Ranking.Compare` | apps/server/src/index.ts:358-361 | the comparator's sign: a solver comes before a non-solver; between two solvers or two non-solvers the earlier solve time comes first, a missing or zero time counting as infinity; zero exactly when both the solved flag and the time (or both infinite) agree, so two infinite times tie rather than giving NaN |
| `Ranking.RankLeTotal` | apps/server/src/index.ts:358-360 | any two participants are comparable |
| `Ranking.RankLeTransitive` | apps/server/src/index.ts:358-360 | the comparator is transitive, a missing or zero time counting as infinity |
| `Ranking.Insert` | apps/server/src/index.ts:357-361 | one insertion step adds the participant and keeps everyone else |
| `Ranking.InsertSorted` | apps/server/src/index.ts:357-361 | inserting into sorted standings keeps them sorted |
| `Ranking.Rankings` | apps/server/src/index.ts:357-361 | the standings are a permutation of the participants, sorted by the comparator |
| `Ranking.InsertTied` | apps/server/src/index.ts:357-361 | inserting keeps the relative order of participants that compare equal |
| `Ranking.RankingsStable` | apps/server/src/index.ts:357-361 | the sort is stable: tied participants keep their join order |
| `Ranking.SolvedFirst` | apps/server/src/index.ts:359 | every solver stands before every non-solver |
| `Ranking.SoleSolverFirst` | apps/server/src/index.ts:355-363 | the only solver heads the standings |
| `Ranking.TwoPlayerExample` | apps/server/src/index.ts:357-361 | a 5000 ms solver stands before a non-solver, whatever the join order |
| `Voting.FindSuggestion` | apps/server/src/index.ts:444 | `problemSuggestions.get`: the position of the suggestion with that id, absent exactly when no suggestion has it |
| `Voting.Upsert` | apps/server/src/index.ts:419 | `Map.set`: replaces a suggestion with the same id in place or appends a new one; other suggestions are kept; ids stay distinct |
| `Voting.ClearBallot` | apps/server/src/index.ts:440-441 | the loop removes the voter from every voter set and changes nothing else |
| `Voting.CastVote` | apps/server/src/index.ts:440-447 | the vote step: the voter ends up in the chosen voter set and in no other, every other voter and every other field of every suggestion is unchanged |
| `Voting.CastVoteBallot` | apps/server/src/index.ts:440-447 | a vote keeps single ballots: if no user held two ballots before, none does after |
| `Voting.RevoteUnchanged` | apps/server/src/index.ts:440-447 | a vote changes nothing exactly when the voter's only ballot is already on the chosen suggestion, whatever ballots other users hold |
| `Voting.VotersMembers` | apps/server/src/index.ts:96 | a user is a voter exactly when some voter set contains them |
| `Voting.VotersAtMostTotal` | apps/server/src/index.ts:96 | there are never more voters than votes |
| `Voting.SingleBallotTotal` | apps/server/src/index.ts:440-447 | with single ballots the total vote count equals the number of voters |
| `Voting.SuggestCanDoubleBallot` | apps/server/src/index.ts:416-419 | a suggestion by someone who already voted leaves them in two voter sets: two votes, one voter |
| `Voting.PickWinner` | apps/server/src/index.ts:475-477 | the `reduce` picks a suggestion with the most votes, the earliest of those on a tie |
| `Voting.WinnerUnique` | apps/server/src/index.ts:475-477 | that winner is unique |
| `Server.VoteCounts` | apps/server/src/index.ts:125-129 | one count per suggestion, equal to the size of its voter set |
| `Server.VoteCountsTotal` | apps/server/src/index.ts:125-129 | the serialized counts add up to the votes cast |
| `Server.Serialize` | apps/server/src/index.ts:120-131 | `serializeRoom` keeps the room and puts beside each suggestion its vote count, the counts summing to the total vote |
| `Server.LeftEvents` | apps/server/src/index.ts:567 | one participant-left event per removed id, and no other event |
| `Server.LeftEventsAppend` | apps/server/src/index.ts:564-567 | one more removed participant adds one event at the end |
| `Server.AfterDisconnectIdempotent` | apps/server/src/index.ts:553-574 | a second disconnect of the same connection leaves the rooms as they are |
| `Server.NewRoomCode` | apps/server/src/index.ts:106-113 | the retry returns the code of the first attempt that no live room uses |
| `Server.DropSocket` | apps/server/src/index.ts:564-571 | the inner loop keeps exactly the participants on other connections and emits one participant-left per participant removed |
| `Server.DropPresence` | apps/server/src/index.ts:557-561 | exactly the presence entries naming the closed connection are removed |
| `Server.DropFromRooms` | apps/server/src/index.ts:563-572 | every room loses the closed connection's participants and is deleted exactly when that empties it; nobody on that connection remains; the events name exactly the removed participants |
| `Server.AfterDisconnectKeepsStore` | apps/server/src/index.ts:563-572 | a disconnect keeps every surviving room well formed and on its instance |
| `Server.SameUserKeepsStore` | apps/server/src/index.ts:308-309 | updating a participant's fields in place keeps the store valid |
| `Server.SameIdsKeepStore` | apps/server/src/index.ts:440-447 | changing voter sets keeps the store valid |
| `Server.RoomStore.constructor` | apps/server/src/index.ts:101-102 | the server starts with no rooms, nobody online and no pending timer |
| `Server.RoomStore.Online` | apps/server/src/index.ts:173-176 | records the user's connection and broadcasts the set of online ids |
| `Server.RoomStore.Offline` | apps/server/src/index.ts:178-181 | forgets the user and broadcasts the set of online ids |
| `Server.RoomStore.SendInvite` | apps/server/src/index.ts:511-520 | an online target gets one invitation on their connection, with "undefined" for a missing sender name; an offline target gets nothing |
| `Server.RoomStore.Create` | apps/server/src/index.ts:185-243 | files a waiting room under a fresh code (the first free draw), with the creator as ready host and sole participant, the JavaScript defaults for missing or falsy settings and one system chat line; nothing is broadcast |
| `Server.RoomStore.Join` | apps/server/src/index.ts:245-301 | upper-cases the code; refuses a missing room, a started battle and a full room, in that order; a member gets the room unchanged; a newcomer is appended unready, announced and greeted in chat |
| `Server.RoomStore.Ready` | apps/server/src/index.ts:303-312 | sets only that participant's readiness and announces it; an unknown room or user changes nothing |
| `Server.RoomStore.Start` | apps/server/src/index.ts:314-338 | succeeds exactly for the host of an existing room whose participants are all ready; then `starting`, a countdown of 3 and a pending timer for that very room |
| `Server.RoomStore.FireStartTimer` | apps/server/src/index.ts:325-335 | the oldest timer puts its room, if still stored, in progress with the start time and announces the start |
| `Server.RoomStore.Solved` | apps/server/src/index.ts:340-365 | only a first solve in a room in progress counts; it records the time, finishes the room and announces the solver as winner with the sorted standings |
| `Server.RoomStore.Chat` | apps/server/src/index.ts:367-383 | appends the message with id `msg-<ms>-<socket>` to an existing room and broadcasts it |
| `Server.RoomStore.SuggestProblem` | apps/server/src/index.ts:387-429 | refuses a missing room, a locked problem, a room not waiting and a repeated slug, in that order; otherwise stores the suggestion with its proposer as only voter, appended when its id is new |
| `Server.RoomStore.VoteProblem` | apps/server/src/index.ts:431-458 | clears the voter's ballot before looking the suggestion up (even when that fails); on success the voter is in exactly the chosen voter set |
| `Server.RoomStore.LockProblem` | apps/server/src/index.ts:460-509 | refuses a missing room, a non-host, a locked problem and an empty ballot, in that order; otherwise the winning suggestion becomes the room's problem, locked for good, announced with its vote count and in chat |
| `Server.RoomStore.Leave` | apps/server/src/index.ts:522-551 | removes the user and posts a chat line; deletes the room when empty; otherwise a leaving host is replaced by the earliest remaining participant |
| `Server.RoomStore.Disconnect` | apps/server/src/index.ts:553-574 | drops the connection's presence entries and participants, deletes emptied rooms, broadcasts the online set first and then one participant-left per removed participant |
| `Server.RoomStore.Snapshot` | apps/server/src/index.ts:143-164 | the room filed under the upper-cased code with its code, status, problem slug and title, difficulty, duration, hardcore flag and LeetCode room URL, and its participants without socket ids in join order; none exactly when there is no such room |

## Left out

- Transport is not modelled: socket.io, Express, CORS, the `/health` endpoint, console logging and the HTTP 404 body. The events record the broadcast channel (the room code) but not whether the sender is excluded (`socket.to` vs `io.to`). Which sockets belong to a channel (`socket.join`/`leave`) is not modelled either.
- Clocks are parameters: `Date.now()` is the caller-supplied `now` and `toISOString()` the caller-supplied `stamp`. The 3000 ms delay of `room:start` becomes a queue of pending timers fired in order.
- Server.NewRoomCode: the random draws come from the caller, who must supply a free one among the attempts. The source retries without bound; the model does not capture that unbounded retry.
- Server.RoomStore.FireStartTimer: when the timer's room has been deleted, the source still writes to the orphaned room object and emits `room:started` to whoever is subscribed to that channel name. The model emits nothing in that case.
- Server.RoomStore.Disconnect: the source walks the rooms in `Map` insertion order, so its participant-left events come in that order. The model characterises those events by membership, not order.
- Server.RoomStore.Online: the presence broadcast carries the set of online ids, not the array in `Map` insertion order.
- Server.Serialize: voter sets stay sets rather than arrays in insertion order, and the duplicated `odId` fields are omitted.
- Utils.LevelFromXp: takes a non-negative integer XP. Negative XP (which yields `NaN`), fractional XP and floating-point `sqrt` rounding are not modelled.
- Utils.XpForLevel: exact integer arithmetic; `Math.pow` on fractional or very large levels is not modelled.
- Utils.FormatDuration and Utils.SplitDuration: take non-negative whole seconds. Negative and fractional inputs are not modelled.
- Text.ToLower and Text.ToUpper: ASCII letters only. JavaScript's full Unicode case mapping is not modelled.
- Seed.SheetEntry: its skip test `SkipsSlug` counts Unicode scalar values, since Dafny strings are sequences of them, while JavaScript's `slug.length < 2` counts UTF-16 code units. A slug that is one character outside the Basic Multilingual Plane (an emoji, say) is kept by the source and skipped by the model.
- `xpProgress`, `timeAgo`, `formatNumber` and the other helpers of `apps/web/lib/utils.ts` are not part of this model.
- Seeding does I/O that is left out: reading `striver_a2z.json`, the Prisma upserts of the sheet and its problems, the created/updated/skipped counters and `process.exit`. The model keeps the per-problem decision (`Seed.SheetEntry`), which is the same for the `update` and `create` branches.
- Room solve times, durations and entry fees are unbounded integers, not IEEE doubles.
