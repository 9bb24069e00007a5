# pokecord-red, modelled in Dafny

A model of the game core of the pokecord-red cog for the Red Discord bot. Players collect
pokémon that spawn in guild channels. Each user's pokémon are rows of a SQLite `users` table
`(user_id, message_id UNIQUE, pokemon JSON)`. A user addresses a pokémon by its 1-based slot in
the listing `SELECT pokemon, message_id FROM users WHERE user_id = ?`. The model covers:

- the spawn counter of `on_message`, `spawn_pokemon` and `pokemon_choose`;
- `catch`, and the experience rule of `exp_gain` / `calc_xp`;
- `nick`, `release`, `select`, `current` and the `psearch` filter loop;
- `trade`, with its bank settlement;
- the developer commands `dev spawn`, `dev ivs` and `dev stats`;
- the `chunks` helper.

Layout, one module per concern:

- `Statements` (statements.dfy): the table and the statements run against it. INSERT, the upsert
  `UPDATE_POKEMON`, DELETE by `message_id`, and the listing query. The query is a loop method
  proved equal to the `Listing` function, plus the `[None]`-headed slot list the commands build.
  Lemmas say exactly how each statement changes every user's listing.
- `PokecordRules` (rules.dfy): the pure rules of `pokecord/pokecord.py`: the counter step, the
  spawn choice, the names `catch` accepts, and the experience and level-up rule.
- `General` (general.dfy): the selected-slot repair shared by `release` and `trade`, and the
  per-record test of `psearch` with its loop.
- `Trading` (trading.dfy): the bank settlement of an accepted trade.
- `Dev` (dev.dfy): the catalog lookup loop of `dev spawn`.
- `Functions` (functions.dfy): `chunks`.
- `Text` and `Records`: Python's `str.lower`, `strip(string.punctuation)`, `split()[0]` and
  negative indexing, and the records.
- `Cog` (cog.dfy): class `Pokecord`, holding the state the handlers update in place:
  - the table;
  - the per-user `pokeid` and `timestamp` settings;
  - the bank balances;
  - `maybe_spawn`;
  - `spawnedpokemon`.

  Each command is a method whose postcondition gives the reply and the whole new state in terms
  of the functions above.

Random draws, prompt replies, the clock and the live channel set are method parameters, with
the ranges the code draws from. A prompt reply is `Yes | No | Timeout`.

Behaviour of the code worth noting:

- `exp_gain` grants 1 to 4 experience with a 120-second cooldown. It grants to the first
  pokémon below level 100 in listing order, not to the selected one.
- `release` never clears `has_starter`.
- `trade` has no lower bound on the slot id.
- `nick` lets `id = N + 1` past its guard.

## Model

| member | source | states |
|---|---|---|
| Statements.Listing | pokecord/statements.py:24-26 | the listing query: a user's rows in table (key) order; what it returns after each statement is proved by the lemmas below |
| Statements.Insert | pokecord/statements.py:19-22 | `INSERT_POKEMON` appends the row; its effect on every listing is `InsertNewest` |
| Statements.Upsert | pokecord/statements.py:28-33 | `UPDATE_POKEMON`: update in place when the `message_id` is stored, insert otherwise; its effect is `UpdateSlot` |
| Statements.Delete | pokecord/general.py:169 | `DELETE ... WHERE message_id = ?` drops every row with that key; its effect is `ListingDelete`, `DeleteSlot` and `DeleteKeys` |
| Statements.SelectPokemon | pokecord/statements.py:24-26 | the row-by-row read of the listing query returns exactly `Listing(t, u)`: that user's rows in key order |
| Statements.SentinelSlots | pokecord/general.py:129-131 | the `[None]`-headed list has N+1 entries, entry 0 is `None`, and entry `i` is slot `i` of the listing |
| Statements.UpdateSlot | pokecord/statements.py:28-33 | upserting with slot `i`'s own key is an update in place: the table stays ordered, that slot now holds the new record, and every other user's listing is unchanged |
| Statements.DeleteSlot | pokecord/general.py:168-171 | deleting slot `i`'s key removes exactly that slot from the owner's listing and leaves every other listing unchanged |
| Statements.InsertNewest | pokecord/statements.py:19-22 | inserting under a newer `message_id` appends the row to that user's listing only and keeps the table ordered |
| Statements.MoveSlot | pokecord/trading.py:94-101 | a delete by key followed by an insert for another user moves the slot: it leaves the seller's listing and is appended to the buyer's; third parties are unchanged |
| Statements.KeyOwner | pokecord/pokecord.py:69-73 | a listed key is in the table and every row with that key belongs to the listing's user (`message_id` is unique) |
| Statements.ListingOrdered | pokecord/pokecord.py:69-73 | a listing inherits the table's key order, so its keys are distinct |
| Statements.ListingUpdate | pokecord/statements.py:28-33 | an update by key rewrites exactly the rows with that key in any listing |
| Statements.ListingDelete | pokecord/general.py:168-171 | a delete by key drops exactly the rows with that key from any listing |
| Statements.DeleteOrdered | pokecord/general.py:168-171 | a delete keeps the table in key order |
| Statements.DeleteNewer | pokecord/trading.py:94-97 | a key newer than every stored key is still newer after a delete |
| Statements.DeleteKeys | pokecord/general.py:168-171 | after a delete by `k` the stored keys are the old keys minus `k` |
| Statements.DropKeyAt | pokecord/general.py:168-171 | dropping the key of slot `i` from an ordered listing removes exactly slot `i` |
| Statements.ListingConcat | pokecord/statements.py:24-26 | the listing of a concatenation is the concatenation of the listings |
| Statements.NotListed | pokecord/statements.py:24-26 | a key no row of `v` carries is absent from `v`'s listing |
| Functions.Chunks | pokecord/functions.py:25-28 | joining the chunks in order gives back the list |
| Functions.ChunksCount | pokecord/functions.py:25-28 | there are ceil(len(l)/n) chunks, and none exactly when the list is empty |
| Functions.ChunkAt | pokecord/functions.py:25-28 | chunk `k` is `l[k*n : k*n+n]`, clamped at the end |
| Functions.ChunkLengths | pokecord/functions.py:25-28 | every chunk but the last has length `n`; the last has 1 to `n` elements |
| Functions.ChunksFromCount | pokecord/functions.py:27 | from position `i` the chunk count covers the rest of the list in `n`-steps |
| Functions.ChunksFromAt | pokecord/functions.py:27-28 | chunk `k` from position `i` is the slice starting `k*n` further |
| Functions.ChunksFromConcat | pokecord/functions.py:27-28 | the chunks from `i` join to `l[i:]` |
| PokecordRules.SpawnChance | pokecord/pokecord.py:181-182 | a spawn is due when the count exceeds the drawn threshold; the schedule it gives is `RunFrom` |
| PokecordRules.Count | pokecord/pokecord.py:202-211 | one qualifying message touches only its guild's counter; a new counter starts at 0 with the drawn threshold; the spawn fires exactly when the count plus one exceeds the threshold, and then the counter is gone; otherwise the count is one higher |
| PokecordRules.SpawnOnMessageAfterThreshold | pokecord/pokecord.py:181-182 | with a fresh counter and threshold `t`, messages 1..t spawn nothing and message t+1 spawns and consumes the counter |
| PokecordRules.RunFrom | pokecord/pokecord.py:202-211 | from count `a` up to threshold `t`, the next `t - a` messages do not spawn and the one after does |
| PokecordRules.Choose | pokecord/pokecord.py:123-127 | a draw of 1 or 2 out of 200 picks from the mega list, any other draw from the normal list |
| PokecordRules.CatchNames | pokecord/pokecord.py:163-166 | the names `catch` compares with: the lowered name and stripped name, then the lowered alias and stripped alias when the alias is set |
| PokecordRules.Accepts | pokecord/pokecord.py:167 | a guess is accepted when its lowered form is one of `CatchNames`; proved about it by `AcceptsLowered` and `AcceptsStrippedName` |
| PokecordRules.AcceptsLowered | pokecord/pokecord.py:167 | the guess is compared case-insensitively |
| PokecordRules.AcceptsStrippedName | pokecord/pokecord.py:163-166 | a name or alias wrapped in punctuation is caught by its bare core |
| PokecordRules.CalcXp | pokecord/pokecord.py:236-237 | the experience a level needs is 25 times the level |
| PokecordRules.CalcXpIncreasing | pokecord/pokecord.py:236-237 | the threshold grows strictly with the level |
| PokecordRules.AddBonus | pokecord/pokecord.py:263-264 | every stat, and no other key, rises by 1 to 3 |
| PokecordRules.GainXp | pokecord/pokecord.py:255-264 | the level rises by one exactly when experience reaches the threshold; then experience is 0 and the stats get the bonus; otherwise only experience grows; identity fields never change |
| PokecordRules.GainXpBelowThreshold | pokecord/pokecord.py:258-261 | after a grant, experience is in [0, threshold of the new level) |
| PokecordRules.NoLevelBeforeThreshold | pokecord/pokecord.py:257-259 | while the summed gains stay below the threshold, the level holds and experience is the running sum |
| PokecordRules.FewGrantsNoLevel | pokecord/pokecord.py:242-259 | fewer than threshold/4 grants of at most 4 never level a pokémon that starts at 0 (with the helper sums `SumPositive` and `SumAtMostFour`) |
| PokecordRules.GainXpAsWritten | pokecord/pokecord.py:259-277 | as written, a grant that reaches the threshold writes nothing, so no stored record ever changes level |
| PokecordRules.AsWrittenNeverLevels | pokecord/pokecord.py:259-277 | as written, no sequence of grants raises a stored level |
| PokecordRules.LevelUpLostAsWritten | pokecord/pokecord.py:265 | level 1 at 24 experience gaining 1: as written nothing is stored; intended is level 2 at 0 experience |
| PokecordRules.FirstBelowCap | pokecord/pokecord.py:254-255 | the grant target is the first pokémon in listing order below level 100, or none if all are at 100 |
| General.Repair | pokecord/general.py:158-167 | the selection after slot `id` goes: one lower when `id` was below it, 1 when it was `id`, unchanged otherwise (also pokecord/trading.py:105-114); proved about it by the lemmas below |
| General.RepairFollowsSelection | pokecord/general.py:158-167 | after a slot is removed, the repaired selection points at the same pokémon, or is 1 when that pokémon was the one removed |
| General.SelectionStaysInRange | pokecord/general.py:134-167 | over any series of releases the selection stays a valid slot, or is 1 on an emptied listing |
| General.SelectionTracksPokemon | pokecord/general.py:158-171 | over any series of releases, while the selected pokémon is still owned, the selection still designates it |
| General.GoneStaysGone | pokecord/general.py:168-171 | a released key never comes back |
| General.WithoutOrdered | pokecord/general.py:168-171 | removing a slot keeps key order and removes that key |
| General.Hit | pokecord/general.py:274-297 | the `psearch` test of one record: the first given criterion decides, in the code's order (names, level, id, variant, iv, gender, type); it raises only when gender is the deciding criterion and the record's gender has no word |
| General.Psearch | pokecord/general.py:268-297 | the search crashes exactly when `Hit` raises for some record, that is when gender is the deciding criterion and some record's gender has no word; otherwise it finds exactly the 1-based indices of matching records, in increasing order |
| General.SearchIgnoresArgumentCase | pokecord/general.py:275-296 | the name, variant, gender and type arguments match regardless of their case |
| General.MissingVariantIsNone | pokecord/general.py:284 | a record with no variant is found by the variant "none" |
| Trading.Settle | pokecord/trading.py:116-122 | the buyer is debited the price; the seller is credited up to the bank's ceiling; nobody else changes |
| Trading.SettleConserves | pokecord/trading.py:116-118 | below the ceiling, no money is made or lost |
| Trading.SettleAsWritten | pokecord/trading.py:116-122 | as written, the buyer is always debited the price |
| Trading.CeilingLosesPaymentAsWritten | pokecord/trading.py:119-122 | a seller below the ceiling whom the price would lift past it: as written the seller's balance does not move while the buyer pays, so the price is lost; intended, the seller reaches the ceiling |
| Dev.SpawnName | pokecord/dev.py:32-36 | the name `dev spawn` looks an entry up by: its lowercased alias when set and non-empty, else its lowercased name |
| Dev.FindSpawn | pokecord/dev.py:31-37 | returns the first catalog entry whose lowercased alias, or else lowercased name, equals the argument; returns none exactly when no entry does |
| Dev.MixedCaseNeverFound | pokecord/dev.py:32-37 | an argument with an upper-case letter never finds an entry |
| Records.PyIndex | pokecord/general.py:329-339 | Python indexing: `0..len-1` from the front, `-len..-1` from the back, anything else the `IndexError`; its use is `TradeIndexIsPyIndex` and `Current` |
| Text.StripPunct | pokecord/pokecord.py:164 | `str.strip(string.punctuation)`: punctuation removed from both ends; proved about it by `StripPunctOfWrapped` |
| Text.FirstWord | pokecord/general.py:292 | `.split()[0]`: the first run of non-separators after leading separators, or the `IndexError` of a blank string; proved about it by `FirstWordOf` |
| Text.Lower | pokecord/pokecord.py:164 | lowering keeps the length and leaves no upper-case letter |
| Text.LowerIdempotent | pokecord/general.py:275 | lowering twice is lowering once |
| Text.StripPunctOfWrapped | pokecord/pokecord.py:164 | stripping punctuation from a core wrapped in punctuation gives the core |
| Text.FirstWordOf | pokecord/general.py:292 | the first word of `w + " " + rest` is `w` |
| Cog.GrantTable | pokecord/pokecord.py:254-278 | the table after one intended grant (as written: `GrantTableAsWritten`); its effect is `GrantTableEffect` |
| Cog.GrantTableEffect | pokecord/pokecord.py:254-278 | the intended grant rewrites only the target slot of that user, with `GainXp`, or nothing when no pokémon is below 100; the table stays ordered |
| Cog.GrantTableAsWritten | pokecord/pokecord.py:254-277 | the table after one grant as written, or the `KeyError` of line 265; its effect is `GrantAsWrittenKeepsLevels` |
| Cog.GrantAsWrittenKeepsLevels | pokecord/pokecord.py:254-277 | as written, a grant raises exactly when the first pokémon below level 100 reaches its threshold; otherwise no stored level changes and other users are untouched |
| Cog.LevellingMessageNotCountedAsWritten | pokecord/pokecord.py:201-207 | a message whose grant would level up raises before the counter step, while a counted message always changes the counters |
| Cog.TradeIndex | pokecord/trading.py:38-40 | the 0-based row `trade` takes for slot `id`: 1..N, and -N..-1 from the end |
| Cog.TradeIndexIsPyIndex | pokecord/trading.py:38-40 | a slot id passes the guard and names a pokémon exactly for ids 1..N and -N..-1 |
| Cog.NegativeTradeSlotMovesSelection | pokecord/trading.py:102-114 | trading slot -1 (the last) repairs the selection as if a lower slot had gone: the selection moves off its pokémon |
| Cog.Negotiation | pokecord/trading.py:42-93 | a trade is accepted exactly when the author says yes, names a price the buyer can spend, and the buyer says yes |
| Cog.AddStatBonus | pokecord/pokecord.py:263-264 | the bonus loop over the stats computes `AddBonus` |
| Cog.Pokecord.constructor | pokecord/pokecord.py:48-78 | the table, `pokeid`, `timestamp` and balances are the persisted ones (empty on a first load); the spawn counters and spawns start empty |
| Cog.Pokecord.Qualifies | pokecord/pokecord.py:192-200 | the gate of `on_message`: a guild message from a non-bot author, in a cached guild whose game is on |
| Cog.Pokecord.SpawnTarget | pokecord/pokecord.py:212-218 | the message's channel when the guild has no active channels, else the drawn active channel if it still exists, else no spawn |
| Cog.Pokecord.SpawnPokemon | pokecord/pokecord.py:221-226 | exactly the (guild, channel) slot takes the chosen pokémon; every other slot is unchanged |
| Cog.Pokecord.Catch | pokecord/pokecord.py:157-179 | a guess equal, ignoring case, to the name, the alias or either stripped of punctuation stores the spawn for the author at the drawn level with 0 experience, and clears the slot; otherwise nothing changes |
| Cog.Pokecord.ExpGain | pokecord/pokecord.py:239-278 | within 120 s of the last grant nothing changes; otherwise the timestamp is set and the table becomes `GrantTable` |
| Cog.Pokecord.ExpGainAsWritten | pokecord/pokecord.py:239-277 | as written: the cooldown as in `ExpGain`; after it the timestamp is set, a levelling grant raises and writes nothing, any other grant is written back |
| Cog.Pokecord.OnMessageAsWritten | pokecord/pokecord.py:192-219 | as written: when `exp_gain` raises, neither the counters nor the spawns change; otherwise the message is counted and spawns as in `OnMessage` |
| Cog.Pokecord.Grant | pokecord/pokecord.py:245-278 | the intended grant: the listing loop writes back `GainXp` of the first pokémon below level 100 (as written a level-up raises first; see `ExpGainAsWritten`) |
| Cog.Pokecord.CountMessage | pokecord/pokecord.py:202-211 | the in-place counter update is `Count` |
| Cog.Pokecord.OnMessage | pokecord/pokecord.py:193-219 | other messages change nothing; a qualifying one grants experience, counts, and, when due, spawns in the message channel or the drawn active channel if it exists |
| Cog.Pokecord.Nick | pokecord/general.py:61-109 | each guard's reply; `id = N+1` raises; a valid slot gets the nickname in place and nothing else changes |
| Cog.Pokecord.Release | pokecord/general.py:113-174 | each guard's and prompt's reply; on "yes" the slot is deleted and the selection repaired |
| Cog.Pokecord.Select | pokecord/general.py:179-219 | "latest" means slot N; a slot in 1..N becomes the selection; anything else is refused with the selection unchanged |
| Cog.Pokecord.Current | pokecord/general.py:310-342 | shows the pokémon at the selection read with Python indexing; an out-of-range selection is reset to 1 |
| Cog.Pokecord.DevSpawn | pokecord/dev.py:24-40 | no name spawns at random; a found name spawns the first matching catalog entry; an unknown name changes nothing |
| Cog.Pokecord.DevSpawnAsWritten | pokecord/dev.py:38 | as written, a found name raises and nothing is spawned |
| Cog.Pokecord.DevIvs | pokecord/dev.py:56-82 | slot 1..N gets exactly the six given IVs in place; any other slot is refused and nothing changes |
| Cog.Pokecord.DevStats | pokecord/dev.py:99-125 | slot 1..N gets exactly the six given stats in place; any other slot is refused and nothing changes |
| Cog.Pokecord.Trade | pokecord/trading.py:23-122 | ids above N are refused; 0 and ids below -N raise; the prompts end as `Negotiation` says; on acceptance the row moves, the selection is repaired with the raw id, and the bank settles by the intended `Settle` (as written, a credit past the ceiling raises instead: `SettleAsWritten`) |
| Cog.Pokecord.Offer | pokecord/trading.py:42-122 | the prompt outcome is `Negotiation`; only an accepted trade changes the table, the selection and the balances, the latter by the intended `Settle` |
| Cog.Pokecord.MoveRow | pokecord/trading.py:94-101 | the delete and insert move the slot to the buyer under the command's `message_id` |
| Cog.Pokecord.Pay | pokecord/trading.py:116-122 | the intended settlement: the balances become `Settle`; as written, a credit past the ceiling raises before `set_balance` and the balances are `SettleAsWritten` |
| Cog.Pokecord.Reselect | pokecord/general.py:158-167 | the selection becomes `Repair(id, old selection)`; it is written whenever the released id is at or below the selection, and left alone otherwise |
| Cog.Pokecord.Rewrite | pokecord/general.py:97-104 | the upsert with a slot's key changes that slot only |
| Cog.Pokecord.Drop | pokecord/general.py:168-171 | the delete with a slot's key removes that slot only, and that key leaves the table |

## Left out

- Discord I/O is not modelled: embeds, menus and replies beyond their outcome, `get_name`
  localisation (`psearch` compares the stored name), image hashes and `get_hash`.
- Red's config store is a map per setting. This snapshot registers only `pokemon`, `silence` and
  `timestamp` for users (pokecord/pokecord.py:55). `has_starter` and `pokeid` are read throughout;
  the model takes them as registered with defaults "no starter" and 1.
- Concurrency is not modelled (`max_concurrency`, the thread executor, interleaved prompts): each
  command runs atomically.
- Randomness, the clock and live channels are parameters with the ranges the code draws from.
  Timestamps are whole seconds, not floats.
- Text.Lower: `str.lower` is modelled on ASCII letters only, not full Unicode case mapping.
- Text.FirstWord: `str.split` is modelled on its ASCII separators (space, `\t`, `\n`, `\r`,
  `\x0b`, `\x0c` and `\x1c` to `\x1f`); Unicode separators such as U+00A0 are not.
- Message ids are Discord snowflakes, which grow with time. `Catch` and `Trade` require the
  command's id to be newer than every stored id; this makes a user's key order the order of
  insertion.
- The spawned-pokémon map `{guild: {channel: pokemon}}` is flattened to (guild, channel) keys.
  The empty inner dictionary `spawn_pokemon` may leave behind is not modelled.
- `catch` mutates the catalog dictionary it spawned from (level and experience are written into
  the shared object). The model copies values, so this aliasing is not captured.
- A stored variant or gender of JSON `null` (which would make `.lower()` raise `AttributeError` in
  `psearch`, pokecord/general.py:284 and 292) is treated like a missing key, which gets the default.
- Cog.Pokecord.DevSpawn: the lookup walks a list of catalog entries. The code walks
  `self.pokemondata`, which `pokemon_choose` indexes by "normal" and "mega". Iterating that
  mapping would yield its keys, and `.get` on a key would raise. pokemon.json is not part of this
  model, so the catalog's shape is taken from the intended lookup.
- The `list` and `pokedex` commands only display data and are not modelled. Neither is the
  settings cog, nor the starter command, which is not part of this model.
- The bank is external. Its `can_spend`, `withdraw_credits` and `deposit_credits` are modelled as
  the framework documents them, with the ceiling as a constant.
- The guild cache starts empty in `__init__` and is filled from the config store when the cog
  loads; the model takes it as already loaded, a constant of the cog.
- Functions.Chunks: requires `n > 0`. In Python `chunks(l, 0)` raises `ValueError` from `range` and a negative `n`
  gives `[]`; the one caller passes a positive constant.
- General.Psearch: the result is the list of matching indices. The paging of the text is not
  modelled.

## Findings

| source | as written | input that shows it | evidently intended | confidence | as-written member | corrected member |
|---|---|---|---|---|---|---|
| pokecord/pokecord.py:265 | the level-up branch reads `userconf["toggle"]`. Users have no such setting (pokecord/pokecord.py:55); the notification flag is `silence` (pokecord/settings.py:12-17). The `KeyError` ends `exp_gain` before the upsert, so levels never persist, and `on_message` stops before counting the message | a level-1 pokémon at 24 experience gaining 1 | test `userconf["silence"]` and write the levelled record | high, not executed | PokecordRules.GainXpAsWritten, PokecordRules.AsWrittenNeverLevels, PokecordRules.LevelUpLostAsWritten, Cog.Pokecord.ExpGainAsWritten, Cog.Pokecord.OnMessageAsWritten, Cog.LevellingMessageNotCountedAsWritten | PokecordRules.GainXp, Cog.GrantTable, Cog.GrantTableEffect, Cog.Pokecord.Grant, Cog.Pokecord.ExpGain, Cog.Pokecord.OnMessage |
| pokecord/trading.py:121 | the `BalanceTooHigh` handler formats `{balance}` with the keyword `balanace`. The `KeyError` comes before `set_balance`, so the seller is paid nothing while the buyer has already been debited | a seller below the bank's maximum whom the price lifts past it (maximum 100, seller 99, price 10): as written the seller stays at 99, intended is 100 | set the seller's balance to the maximum | high, not executed | Trading.SettleAsWritten, Trading.CeilingLosesPaymentAsWritten | Trading.Settle, Cog.Pokecord.Pay, Cog.Pokecord.Offer, Cog.Pokecord.Trade |
| pokecord/dev.py:38 | a found entry is passed to `spawn_pokemon(ctx.channel, pokemon=...)`. `spawn_pokemon` takes only the channel (pokecord/pokecord.py:221), so the call raises `TypeError` and the named pokémon never spawns | `dev spawn` with the lowercased name of any catalog entry | spawn that entry in the channel | high, not executed | Cog.Pokecord.DevSpawnAsWritten | Cog.Pokecord.DevSpawn |
