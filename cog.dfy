/**
 * The cog's state and its command handlers, each one step: the game
 * tables (`self.maybe_spawn`, `self.spawnedpokemon`), the `users` table,
 * the per-user settings (`pokeid`, `timestamp`) and the bank balances.
 * The settings the handlers only read (guild cache, spawn bounds, the
 * catalog, who has a starter, the bank ceiling) are constants.
 */
module Cog {
  import opened Wrappers
  import opened Records
  import opened Text
  import opened Statements
  import opened PokecordRules
  import opened General
  import opened Trading
  import opened Dev

  /** A guild's cached settings. */
  datatype GuildConf = GuildConf(toggle: bool, activechannels: seq<ChannelId>)

  /** What `on_message` looks at in a message. */
  datatype Message = Message(guild: Option<GuildId>, channel: ChannelId, author: UserId, bot: bool)

  /** `select`'s argument, `Union[int, str]`. */
  datatype SelectArg = Slot(n: int) | Word(w: string)

  /** How a command ends: the message it sends, or an uncaught exception. */
  datatype Reply =
    | Done
    | NoStarter
    | IdNotPositive
    | NicknameTooLong
    | NoSuchSlot
    | Raised
    | TimedOut
    | Cancelled
    | Declined
    | CannotAfford
    | UnknownKeyword
    | InvalidId
    | NoPokemon
    | SelectionReset
    | Shown(row: Row)
    | NotFound
    | NoSpawn
    | WrongGuess

  /**
   * The table after one experience grant to `u`: the first pokémon below
   * level 100 rewritten under its own key, or no change.
   */
  function GrantTable(t: seq<Entry>, u: UserId, gain: int, bonus: Stats): seq<Entry>
    requires BonusDraw(bonus)
  {
    var rows := Listing(t, u);
    match FirstBelowCap(rows)
    case None => t
    case Some(i) => Update(t, rows[i].key, GainXp(rows[i].pokemon, gain, bonus))
  }

  /**
   * A grant changes only the first pokémon below level 100 of that user,
   * as `GainXp` says, and no other row of any user.
   */
  lemma GrantTableEffect(t: seq<Entry>, u: UserId, gain: int, bonus: Stats)
    requires Ordered(t) && BonusDraw(bonus)
    ensures var t' := GrantTable(t, u, gain, bonus); var rows := Listing(t, u);
      && Ordered(t')
      && (forall v :: v != u ==> Listing(t', v) == Listing(t, v))
      && (FirstBelowCap(rows).None? ==> t' == t)
      && (FirstBelowCap(rows).Some? ==>
            var i := FirstBelowCap(rows).value;
            Listing(t', u) == rows[i := Row(GainXp(rows[i].pokemon, gain, bonus), rows[i].key)])
  {
    var rows := Listing(t, u);
    match FirstBelowCap(rows)
    case None =>
    case Some(i) =>
      UpdateSlot(t, u, i, GainXp(rows[i].pokemon, gain, bonus));
  }

  /**
   * The grant of `exp_gain` as written: a grant that reaches the level
   * threshold reads the unregistered setting `toggle` and raises
   * `KeyError` before the upsert (`None`); any other grant is written
   * back with only its experience raised.
   */
  function GrantTableAsWritten(t: seq<Entry>, u: UserId, gain: int): Option<seq<Entry>>
  {
    var rows := Listing(t, u);
    match FirstBelowCap(rows)
    case None => Some(t)
    case Some(i) =>
      match GainXpAsWritten(rows[i].pokemon, gain)
      case None => None
      case Some(q) => Some(Update(t, rows[i].key, q))
  }

  /**
   * As written, a grant raises exactly when the first pokémon below
   * level 100 reaches its threshold; when it does not raise, no stored
   * level of any user changes and every other user's listing is intact.
   */
  lemma GrantAsWrittenKeepsLevels(t: seq<Entry>, u: UserId, gain: int)
    requires Ordered(t)
    ensures var rows := Listing(t, u); var i := FirstBelowCap(rows);
      GrantTableAsWritten(t, u, gain).None? <==>
        (i.Some? && rows[i.value].pokemon.xp + gain >= CalcXp(rows[i.value].pokemon.level))
    ensures GrantTableAsWritten(t, u, gain).Some? ==>
      var t' := GrantTableAsWritten(t, u, gain).value;
      && Ordered(t')
      && |Listing(t', u)| == |Listing(t, u)|
      && (forall j :: 0 <= j < |Listing(t, u)| ==> Listing(t', u)[j].pokemon.level == Listing(t, u)[j].pokemon.level)
      && (forall v :: v != u ==> Listing(t', v) == Listing(t, v))
  {
    var rows := Listing(t, u);
    match FirstBelowCap(rows)
    case None =>
    case Some(i) =>
      match GainXpAsWritten(rows[i].pokemon, gain)
      case None =>
      case Some(q) =>
        UpdateSlot(t, u, i, q);
  }

  /**
   * The input that shows the lost count: a message whose grant levels a
   * pokémon raises in `exp_gain`, so `on_message` never reaches the
   * counter, while any counted message changes the counters (with a
   * threshold draw of at least 1).
   */
  lemma LevellingMessageNotCountedAsWritten(t: seq<Entry>, u: UserId, gain: int,
                                           m: map<GuildId, Counter>, g: GuildId, draw: int)
    requires Ordered(t) && draw >= 1
    requires var rows := Listing(t, u); var i := FirstBelowCap(rows);
      i.Some? && rows[i.value].pokemon.xp + gain >= CalcXp(rows[i.value].pokemon.level)
    ensures GrantTableAsWritten(t, u, gain) == None
    ensures Count(m, g, draw).0 != m
  {
    GrantAsWrittenKeepsLevels(t, u, gain);
    var c := if g in m then m[g] else Counter(0, draw);
    if !SpawnChance(c.(amount := c.amount + 1)) {
      assert Count(m, g, draw).0[g] == c.(amount := c.amount + 1);
    } else {
      assert g in m;
      assert g !in Count(m, g, draw).0;
    }
  }

  /**
   * The 0-based row `trade` takes for slot `id` of a listing of `n`:
   * slots 1..n, and negative ids counting from the end, as Python
   * indexes the `[None]`-headed list; id 0 (the `None` head) and ids
   * below `-n` give none.
   */
  function TradeIndex(n: nat, id: int): Option<nat>
  {
    if 1 <= id <= n then Some(id - 1)
    else if -1 >= id && id + n >= 0 then Some(n + id)
    else None
  }

  lemma TradeIndexIsPyIndex(rows: seq<Row>, id: int)
    requires id < |rows| + 1
    ensures var p := PyIndex(Sentinel(rows), id);
      TradeIndex(|rows|, id).Some? <==> (p.Some? && p.value.Some?)
    ensures TradeIndex(|rows|, id).Some? ==>
      PyIndex(Sentinel(rows), id) == Some(Some(rows[TradeIndex(|rows|, id).value]))
  {
  }

  /**
   * Trading away the last slot with `id = -1` repairs the selection as
   * if a slot below it had gone: a selection on slot 1 drops to 0, and
   * any other selection moves to a different pokémon although its own
   * pokémon is still there.
   */
  lemma NegativeTradeSlotMovesSelection(rows: seq<Row>, selected: int)
    requires RowsOrdered(rows) && 2 <= |rows| && 1 <= selected < |rows|
    ensures TradeIndex(|rows|, -1) == Some(|rows| - 1)
    ensures Repair(|rows|, selected) == selected
    ensures selected == 1 ==> Repair(-1, selected) == 0
    ensures selected >= 2 ==>
      Without(rows, |rows|)[Repair(-1, selected) - 1].key != rows[selected - 1].key
  {
  }

  /**
   * How the prompts of `trade` end: the author's yes/no (20 seconds),
   * the price (20 seconds), the bank's `can_spend` for the counterparty,
   * and the counterparty's yes/no (30 seconds).
   */
  function Negotiation(confirm: Answer, price: Option<int>, b: map<UserId, int>, user: UserId, accept: Answer): (r: Reply)
    ensures r == Done <==>
      confirm == Yes && price.Some? && CanSpend(b, user, price.value) && accept == Yes
    ensures r in {Done, TimedOut, Cancelled, CannotAfford, Declined}
  {
    match confirm
    case Timeout => TimedOut
    case No => Cancelled
    case Yes =>
      match price
      case None => TimedOut
      case Some(a) =>
        if !CanSpend(b, user, a) then CannotAfford
        else match accept
          case Timeout => TimedOut
          case No => Declined
          case Yes => Done
  }

  class Pokecord {
    /** The `users` table. */
    var table: seq<Entry>
    /** Each user's selected slot (`pokeid`). */
    var pokeid: map<UserId, int>
    /** Each user's last experience grant (`timestamp`), in whole seconds. */
    var timestamp: map<UserId, int>
    /** The bank balances. */
    var balance: map<UserId, int>
    /** `self.maybe_spawn` */
    var maybeSpawn: map<GuildId, Counter>
    /** `self.spawnedpokemon`, keyed by (guild, channel). */
    var spawned: map<(GuildId, ChannelId), Pokemon>

    /** The users whose `has_starter` is set. */
    const starters: set<UserId>
    /** `self.guildcache` */
    const guildcache: map<GuildId, GuildConf>
    /** `self.spawnchance`: the bounds of the threshold draw. */
    const spawnLow: int
    const spawnHigh: int
    /** The two spawn lists of the catalog, and the catalog as `dev_spawn` walks it. */
    const normal: seq<Pokemon>
    const mega: seq<Pokemon>
    const catalog: seq<Pokemon>
    /** The bank's maximum balance. */
    const maxBalance: int

    ghost predicate Valid()
      reads this`table
    {
      Ordered(table) && spawnLow <= spawnHigh && |normal| > 0 && |mega| > 0
    }

    function Rows(u: UserId): seq<Row>
      reads this`table
    {
      Listing(table, u)
    }

    /** `pokeid`, 1 while never set. */
    function Selected(u: UserId): int
      reads this`pokeid
    {
      if u in pokeid then pokeid[u] else 1
    }

    /** `timestamp`, 0 while never set. */
    function LastGrant(u: UserId): int
      reads this`timestamp
    {
      if u in timestamp then timestamp[u] else 0
    }

    function Active(g: GuildId): seq<ChannelId>
    {
      if g in guildcache then guildcache[g].activechannels else []
    }

    /** The gate of `on_message`: a guild message from a person, in a cached guild that has the game on. */
    predicate Qualifies(m: Message)
    {
      m.guild.Some? && !m.bot && m.guild.value in guildcache && guildcache[m.guild.value].toggle
    }

    /**
     * The channel a due spawn goes to: the message's channel when the
     * guild has no active channels, else the drawn active channel if the
     * guild still has it.
     */
    function SpawnTarget(g: GuildId, here: ChannelId, pick: nat, live: set<ChannelId>): Option<ChannelId>
      requires |Active(g)| > 0 ==> pick < |Active(g)|
    {
      if |Active(g)| == 0 then Some(here)
      else if Active(g)[pick] in live then Some(Active(g)[pick])
      else None
    }

    /**
     * Loading the cog: the `users` table, the per-user settings and the
     * bank are whatever was persisted (all empty on a first load), while
     * the in-memory spawn counters and spawns start empty.
     */
    constructor (starters: set<UserId>, guildcache: map<GuildId, GuildConf>, spawnLow: int, spawnHigh: int,
                 normal: seq<Pokemon>, mega: seq<Pokemon>, catalog: seq<Pokemon>, maxBalance: int,
                 stored: seq<Entry>, pokeid: map<UserId, int>, timestamp: map<UserId, int>, balance: map<UserId, int>)
      requires spawnLow <= spawnHigh && |normal| > 0 && |mega| > 0
      requires Ordered(stored)
      ensures Valid()
      ensures table == stored && this.pokeid == pokeid && this.timestamp == timestamp && this.balance == balance
      ensures maybeSpawn == map[] && spawned == map[]
      ensures this.starters == starters && this.guildcache == guildcache
      ensures this.spawnLow == spawnLow && this.spawnHigh == spawnHigh
      ensures this.normal == normal && this.mega == mega && this.catalog == catalog
      ensures this.maxBalance == maxBalance
    {
      table, this.pokeid, this.timestamp, this.balance := stored, pokeid, timestamp, balance;
      maybeSpawn, spawned := map[], map[];
      this.starters, this.guildcache := starters, guildcache;
      this.spawnLow, this.spawnHigh := spawnLow, spawnHigh;
      this.normal, this.mega, this.catalog := normal, mega, catalog;
      this.maxBalance := maxBalance;
    }

    // -------------------------------------------------------------
    // The statements the handlers share
    // -------------------------------------------------------------

    /**
     * `UPDATE_POKEMON` with the `message_id` of slot `i` of `u`: that
     * slot now holds `p`, and no other slot of any user changes.
     */
    method Rewrite(u: UserId, i: nat, key: Key, p: Pokemon)
      requires Valid() && i < |Rows(u)| && key == Rows(u)[i].key
      modifies this`table
      ensures Valid()
      ensures table == Upsert(old(table), u, key, p)
      ensures Rows(u) == old(Rows(u))[i := Row(p, key)]
      ensures forall v :: v != u ==> Rows(v) == old(Rows(v))
    {
      UpdateSlot(table, u, i, p);
      table := Upsert(table, u, key, p);
    }

    /**
     * `DELETE FROM users WHERE message_id = ?` with the key of slot `i`
     * of `u`: that slot leaves the listing, and no other user's changes.
     */
    method Drop(u: UserId, i: nat, key: Key)
      requires Valid() && i < |Rows(u)| && key == Rows(u)[i].key
      modifies this`table
      ensures Valid()
      ensures table == Delete(old(table), key)
      ensures Keys(table) == Keys(old(table)) - {key}
      ensures Rows(u) == Without(old(Rows(u)), i + 1)
      ensures forall v :: v != u ==> Rows(v) == old(Rows(v))
    {
      DeleteSlot(table, u, i);
      DeleteKeys(table, key);
      table := Delete(table, key);
    }

    /**
     * The repair of `u`'s selection after slot `id` is gone: set one
     * lower when `id` was below it, set to 1 when it was `id`, and left
     * alone (not even written) when `id` was above it.
     */
    method Reselect(u: UserId, id: int)
      modifies this`pokeid
      ensures Selected(u) == Repair(id, old(Selected(u)))
      ensures pokeid == (if id > old(Selected(u)) then old(pokeid) else old(pokeid)[u := Selected(u)])
    {
      var selected := Selected(u);
      if id < selected {
        pokeid := pokeid[u := selected - 1];
      } else if id == selected {
        pokeid := pokeid[u := 1];
      }
    }

    // -------------------------------------------------------------
    // pokecord/pokecord.py
    // -------------------------------------------------------------

    /**
     * `spawn_pokemon`: a `pokemon_choose` draw takes the channel's spawn
     * slot, replacing any spawn not yet caught there.
     */
    method SpawnPokemon(g: GuildId, ch: ChannelId, num: int, pick: nat)
      requires 1 <= num <= 200 && pick < (if num > 2 then |normal| else |mega|)
      modifies this`spawned
      ensures spawned == old(spawned)[(g, ch) := Choose(normal, mega, num, pick)]
      ensures forall s :: s != (g, ch) ==> (s in spawned <==> s in old(spawned))
      ensures forall s :: s != (g, ch) && s in spawned ==> spawned[s] == old(spawned)[s]
    {
      var pokemon := Choose(normal, mega, num, pick);
      spawned := spawned[(g, ch) := pokemon];
    }

    /**
     * `catch`: a guess that is one of the spawn's names, ignoring case,
     * stores the spawn for the author under the command's message id at
     * the drawn level with 0 experience, and empties the spawn slot. A
     * wrong guess or an empty slot changes nothing.
     */
    method Catch(g: GuildId, ch: ChannelId, author: UserId, msgId: Key, guess: string, level: int)
      returns (r: Reply)
      requires Valid() && Newer(table, msgId) && 1 <= level <= 13
      modifies this`table, this`spawned
      ensures Valid()
      ensures r in {NoSpawn, WrongGuess, Done}
      ensures r == NoSpawn <==> (g, ch) !in old(spawned)
      ensures (g, ch) in old(spawned) ==>
        var s := old(spawned)[(g, ch)];
        (r == Done <==>
          || Lower(guess) == Lower(s.name)
          || Lower(guess) == Lower(StripPunct(s.name))
          || (s.alias.Some? && (Lower(guess) == Lower(s.alias.value)
                                || Lower(guess) == Lower(StripPunct(s.alias.value)))))
      ensures r != Done ==> table == old(table) && spawned == old(spawned)
      ensures r == Done ==>
        var p := old(spawned)[(g, ch)].(level := level, xp := 0);
        && table == Insert(old(table), author, msgId, p)
        && Rows(author) == old(Rows(author)) + [Row(p, msgId)]
        && (forall v :: v != author ==> Rows(v) == old(Rows(v)))
        && spawned == old(spawned) - {(g, ch)}
    {
      if (g, ch) !in spawned {
        return NoSpawn;
      }
      var pokemonspawn := spawned[(g, ch)];
      var names := CatchNames(pokemonspawn);
      if Lower(guess) !in names {
        return WrongGuess;
      }
      pokemonspawn := pokemonspawn.(level := level, xp := 0);
      InsertNewest(table, author, msgId, pokemonspawn);
      table := Insert(table, author, msgId, pokemonspawn);
      spawned := spawned - {(g, ch)};
      r := Done;
    }

    /**
     * `exp_gain`, with the level-up written back: within 120 seconds of
     * the last grant nothing happens; otherwise the timestamp is set
     * first, then `Grant`.
     */
    method ExpGain(u: UserId, now: int, gain: int, bonus: Stats)
      requires Valid() && 1 <= gain <= 4 && BonusDraw(bonus)
      modifies this`timestamp, this`table
      ensures Valid()
      ensures now - old(LastGrant(u)) < 120 ==> timestamp == old(timestamp) && table == old(table)
      ensures now - old(LastGrant(u)) >= 120 ==>
        timestamp == old(timestamp)[u := now] && table == GrantTable(old(table), u, gain, bonus)
    {
      if now - LastGrant(u) < 120 {
        return;
      }
      timestamp := timestamp[u := now];
      Grant(u, gain, bonus);
    }

    /**
     * The grant of `exp_gain`: the first pokémon of `u` below level 100
     * gains experience (see `GainXp`) and is rewritten under its own key;
     * with no such pokémon nothing is written.
     */
    method Grant(u: UserId, gain: int, bonus: Stats)
      requires Valid() && 1 <= gain <= 4 && BonusDraw(bonus)
      modifies this`table
      ensures Valid()
      ensures table == GrantTable(old(table), u, gain, bonus)
    {
      var pokemons := SelectPokemon(table, u);
      if |pokemons| == 0 {
        return;
      }
      var i := 0;
      while i < |pokemons|
        invariant 0 <= i <= |pokemons|
        invariant forall j :: 0 <= j < i ==> pokemons[j].pokemon.level >= 100
        invariant table == old(table)
      {
        if pokemons[i].pokemon.level < 100 {
          var pokemon := pokemons[i].pokemon;
          pokemon := pokemon.(xp := pokemon.xp + gain);
          if pokemon.xp >= CalcXp(pokemon.level) {
            var stats := AddStatBonus(pokemon.stats, bonus);
            pokemon := pokemon.(level := pokemon.level + 1, xp := 0, stats := stats);
          }
          assert FirstBelowCap(pokemons) == Some(i);
          assert pokemon == GainXp(pokemons[i].pokemon, gain, bonus);
          Rewrite(u, i, pokemons[i].key, pokemon);
          return;
        }
        i := i + 1;
      }
    }

    /**
     * The counter step of `on_message` (see `Count`): the flag says a
     * spawn is due, and then the guild's counter is gone.
     */
    method CountMessage(g: GuildId, draw: int) returns (due: bool)
      modifies this`maybeSpawn
      ensures (maybeSpawn, due) == Count(old(maybeSpawn), g, draw)
    {
      ghost var m := maybeSpawn;
      ghost var c := if g in m then m[g] else Counter(0, draw);
      if g !in maybeSpawn {
        maybeSpawn := maybeSpawn[g := Counter(0, draw)];
      }
      maybeSpawn := maybeSpawn[g := maybeSpawn[g].(amount := maybeSpawn[g].amount + 1)];
      assert maybeSpawn == m[g := c.(amount := c.amount + 1)];
      due := SpawnChance(maybeSpawn[g]);
      if due {
        maybeSpawn := maybeSpawn - {g};
        assert maybeSpawn == m - {g};
      }
    }

    /**
     * `on_message`: a qualifying message grants experience to its author,
     * then counts toward the guild's spawn; when a spawn is due it goes
     * to `SpawnTarget`, or nowhere if the drawn channel no longer exists.
     * Other messages change nothing.
     */
    method OnMessage(m: Message, now: int, draw: int, gain: int, bonus: Stats,
                     pick: nat, live: set<ChannelId>, num: int, choice: nat)
      requires Valid()
      requires spawnLow <= draw <= spawnHigh
      requires 1 <= gain <= 4 && BonusDraw(bonus)
      requires m.guild.Some? && |Active(m.guild.value)| > 0 ==> pick < |Active(m.guild.value)|
      requires 1 <= num <= 200 && choice < (if num > 2 then |normal| else |mega|)
      modifies this`timestamp, this`table, this`maybeSpawn, this`spawned
      ensures Valid()
      ensures !Qualifies(m) ==>
        timestamp == old(timestamp) && table == old(table)
        && maybeSpawn == old(maybeSpawn) && spawned == old(spawned)
      ensures Qualifies(m) ==>
        var g, u := m.guild.value, m.author;
        var cooled := now - old(LastGrant(u)) >= 120;
        var (counters, due) := Count(old(maybeSpawn), g, draw);
        && table == (if cooled then GrantTable(old(table), u, gain, bonus) else old(table))
        && timestamp == (if cooled then old(timestamp)[u := now] else old(timestamp))
        && maybeSpawn == counters
        && spawned == (if !due then old(spawned)
                       else match SpawnTarget(g, m.channel, pick, live)
                            case None => old(spawned)
                            case Some(ch) => old(spawned)[(g, ch) := Choose(normal, mega, num, choice)])
    {
      if m.guild.None? || m.bot {
        return;
      }
      var g := m.guild.value;
      if g !in guildcache {
        return;
      }
      var conf := guildcache[g];
      if !conf.toggle {
        return;
      }
      ExpGain(m.author, now, gain, bonus);
      var due := CountMessage(g, draw);
      if !due {
        return;
      }
      var channel: ChannelId;
      if |conf.activechannels| == 0 {
        channel := m.channel;
      } else {
        channel := conf.activechannels[pick];
        if channel !in live {
          return;
        }
      }
      SpawnPokemon(g, channel, num, choice);
    }

    /**
     * `exp_gain` as written: after the cooldown check the timestamp is
     * set; a grant that levels up raises at the `toggle` lookup, so
     * nothing is written back (`raised`); any other grant is written
     * back with its experience raised.
     */
    method ExpGainAsWritten(u: UserId, now: int, gain: int) returns (raised: bool)
      requires Valid() && 1 <= gain <= 4
      modifies this`timestamp, this`table
      ensures Valid()
      ensures now - old(LastGrant(u)) < 120 ==> !raised && timestamp == old(timestamp) && table == old(table)
      ensures now - old(LastGrant(u)) >= 120 ==>
        && timestamp == old(timestamp)[u := now]
        && (raised <==> GrantTableAsWritten(old(table), u, gain).None?)
        && table == (if raised then old(table) else GrantTableAsWritten(old(table), u, gain).value)
    {
      if now - LastGrant(u) < 120 {
        return false;
      }
      timestamp := timestamp[u := now];
      var pokemons := SelectPokemon(table, u);
      var i := 0;
      while i < |pokemons|
        invariant 0 <= i <= |pokemons|
        invariant forall j :: 0 <= j < i ==> pokemons[j].pokemon.level >= 100
        invariant table == old(table)
      {
        if pokemons[i].pokemon.level < 100 {
          var pokemon := pokemons[i].pokemon;
          pokemon := pokemon.(xp := pokemon.xp + gain);
          assert FirstBelowCap(pokemons) == Some(i);
          if pokemon.xp >= CalcXp(pokemon.level) {
            return true;
          }
          UpdateSlot(table, u, i, pokemon);
          Rewrite(u, i, pokemons[i].key, pokemon);
          return false;
        }
        i := i + 1;
      }
      return false;
    }

    /**
     * `on_message` as written: when `exp_gain` raises, the exception ends
     * the handler before the message is counted, so neither the counters
     * nor the spawns change; otherwise it goes on as `OnMessage` does.
     */
    method OnMessageAsWritten(m: Message, now: int, draw: int, gain: int,
                              pick: nat, live: set<ChannelId>, num: int, choice: nat) returns (raised: bool)
      requires Valid()
      requires spawnLow <= draw <= spawnHigh
      requires 1 <= gain <= 4
      requires m.guild.Some? && |Active(m.guild.value)| > 0 ==> pick < |Active(m.guild.value)|
      requires 1 <= num <= 200 && choice < (if num > 2 then |normal| else |mega|)
      modifies this`timestamp, this`table, this`maybeSpawn, this`spawned
      ensures Valid()
      ensures !Qualifies(m) ==>
        !raised && timestamp == old(timestamp) && table == old(table)
        && maybeSpawn == old(maybeSpawn) && spawned == old(spawned)
      ensures Qualifies(m) ==>
        var g, u := m.guild.value, m.author;
        var cooled := now - old(LastGrant(u)) >= 120;
        && (raised <==> cooled && GrantTableAsWritten(old(table), u, gain).None?)
        && timestamp == (if cooled then old(timestamp)[u := now] else old(timestamp))
        && table == (if cooled && !raised then GrantTableAsWritten(old(table), u, gain).value else old(table))
      ensures Qualifies(m) && raised ==> maybeSpawn == old(maybeSpawn) && spawned == old(spawned)
      ensures Qualifies(m) && !raised ==>
        var (counters, due) := Count(old(maybeSpawn), m.guild.value, draw);
        && maybeSpawn == counters
        && spawned == (if !due then old(spawned)
                       else match SpawnTarget(m.guild.value, m.channel, pick, live)
                            case None => old(spawned)
                            case Some(ch) => old(spawned)[(m.guild.value, ch) := Choose(normal, mega, num, choice)])
    {
      if m.guild.None? || m.bot {
        return false;
      }
      var g := m.guild.value;
      if g !in guildcache {
        return false;
      }
      var conf := guildcache[g];
      if !conf.toggle {
        return false;
      }
      raised := ExpGainAsWritten(m.author, now, gain);
      if raised {
        return;
      }
      var due := CountMessage(g, draw);
      if !due {
        return;
      }
      var channel: ChannelId;
      if |conf.activechannels| == 0 {
        channel := m.channel;
      } else {
        channel := conf.activechannels[pick];
        if channel !in live {
          return;
        }
      }
      SpawnPokemon(g, channel, num, choice);
    }

    // -------------------------------------------------------------
    // pokecord/general.py
    // -------------------------------------------------------------

    /**
     * `nick`: after the starter, id and length guards, the pokémon at
     * slot `id` gets the nickname, rewritten under its own key. The slot
     * guard compares with the `[None]`-headed list, so `id = N + 1`
     * passes it and the lookup raises `IndexError`.
     */
    method Nick(u: UserId, id: int, nickname: string) returns (r: Reply)
      requires Valid()
      modifies this`table
      ensures Valid()
      ensures u !in starters ==> r == NoStarter
      ensures u in starters && id <= 0 ==> r == IdNotPositive
      ensures u in starters && id > 0 && |nickname| > 40 ==> r == NicknameTooLong
      ensures u in starters && |nickname| <= 40 && id > |old(Rows(u))| + 1 ==> r == NoSuchSlot
      ensures u in starters && |nickname| <= 40 && id == |old(Rows(u))| + 1 ==> r == Raised
      ensures u in starters && |nickname| <= 40 && 1 <= id <= |old(Rows(u))| ==> r == Done
      ensures r != Done ==> table == old(table)
      ensures r == Done ==> 1 <= id <= |old(Rows(u))|
      ensures r == Done && 1 <= id <= |old(Rows(u))| ==>
        var row := old(Rows(u))[id - 1];
        var p := row.pokemon.(nickname := Some(nickname));
        && table == Upsert(old(table), u, row.key, p)
        && Rows(u) == old(Rows(u))[id - 1 := Row(p, row.key)]
        && (forall v :: v != u ==> Rows(v) == old(Rows(v)))
    {
      if u !in starters {
        return NoStarter;
      }
      if id <= 0 {
        return IdNotPositive;
      }
      if |nickname| > 40 {
        return NicknameTooLong;
      }
      var pokemons := SentinelSlots(table, u);
      if id > |pokemons| {
        return NoSuchSlot;
      }
      if id >= |pokemons| {
        return Raised;
      }
      var row := pokemons[id].value;
      var pokemon := row.pokemon.(nickname := Some(nickname));
      Rewrite(u, id - 1, row.key, pokemon);
      r := Done;
    }

    /**
     * `release`: ids outside 1..N are refused before the prompt; a
     * timeout or a "no" changes nothing; a "yes" repairs the selected
     * slot and deletes the row of slot `id` by its key.
     */
    method Release(u: UserId, id: int, answer: Answer) returns (r: Reply)
      requires Valid()
      modifies this`table, this`pokeid
      ensures Valid()
      ensures u !in starters ==> r == NoStarter
      ensures u in starters && id <= 0 ==> r == IdNotPositive
      ensures u in starters && id > |old(Rows(u))| ==> r == NoSuchSlot
      ensures u in starters && 1 <= id <= |old(Rows(u))| ==>
        r == (match answer case Yes => Done case No => Cancelled case Timeout => TimedOut)
      ensures r != Done ==> table == old(table) && pokeid == old(pokeid)
      ensures r == Done ==> 1 <= id <= |old(Rows(u))|
      ensures r == Done && 1 <= id <= |old(Rows(u))| ==>
        var rows := old(Rows(u));
        && table == Delete(old(table), rows[id - 1].key)
        && Rows(u) == Without(rows, id)
        && (forall v :: v != u ==> Rows(v) == old(Rows(v)))
        && Selected(u) == Repair(id, old(Selected(u)))
        && pokeid == (if id > old(Selected(u)) then old(pokeid) else old(pokeid)[u := Selected(u)])
    {
      if u !in starters {
        return NoStarter;
      }
      if id <= 0 {
        return IdNotPositive;
      }
      var pokemons := SentinelSlots(table, u);
      if id >= |pokemons| {
        return NoSuchSlot;
      }
      var row := pokemons[id].value;
      match answer {
        case Timeout => return TimedOut;
        case No => return Cancelled;
        case Yes =>
      }
      Reselect(u, id);
      Drop(u, id - 1, row.key);
      r := Done;
    }

    /**
     * `select`: `"latest"` means slot N and other words are refused; a
     * slot outside 1..N is refused; otherwise it becomes the selection.
     */
    method Select(u: UserId, arg: SelectArg) returns (r: Reply)
      requires Valid()
      modifies this`pokeid
      ensures u !in starters ==> r == NoStarter
      ensures u in starters && arg.Word? && arg.w != "latest" ==> r == UnknownKeyword
      ensures u in starters && (arg.Slot? || arg.w == "latest") ==>
        var target := if arg.Slot? then arg.n else |old(Rows(u))|;
        if 1 <= target <= |old(Rows(u))| then r == Done && pokeid == old(pokeid)[u := target]
        else r == InvalidId
      ensures r != Done ==> pokeid == old(pokeid)
    {
      if u !in starters {
        return NoStarter;
      }
      var pokemons := SentinelSlots(table, u);
      var id: int;
      match arg {
        case Word(w) =>
          if w == "latest" {
            id := |pokemons| - 1;
          } else {
            return UnknownKeyword;
          }
        case Slot(n) =>
          id := n;
      }
      if id < 1 || id > |pokemons| - 1 {
        return InvalidId;
      }
      pokeid := pokeid[u := id];
      r := Done;
    }

    /**
     * `current`: the pokémon at the selected slot, read with Python
     * indexing of `pokeid - 1`, so slots 1..N show that slot and slots
     * 1-N..0 wrap to the end; any other slot resets the selection to 1.
     */
    method Current(u: UserId) returns (r: Reply)
      requires Valid()
      modifies this`pokeid
      ensures u !in starters ==> r == NoStarter && pokeid == old(pokeid)
      ensures u in starters && old(Rows(u)) == [] ==> r == NoPokemon && pokeid == old(pokeid)
      ensures u in starters && old(Rows(u)) != [] ==>
        match PyIndex(old(Rows(u)), old(Selected(u)) - 1)
        case Some(row) => r == Shown(row) && pokeid == old(pokeid)
        case None => r == SelectionReset && pokeid == old(pokeid)[u := 1]
      ensures u in starters && 1 <= old(Selected(u)) <= |old(Rows(u))| ==>
        r == Shown(old(Rows(u))[old(Selected(u)) - 1])
      ensures u in starters && old(Selected(u)) > |old(Rows(u))| > 0 ==> r == SelectionReset
    {
      if u !in starters {
        return NoStarter;
      }
      var pokemons := SelectPokemon(table, u);
      if |pokemons| == 0 {
        return NoPokemon;
      }
      var id := Selected(u);
      var pokemon := PyIndex(pokemons, id - 1);
      match pokemon {
        case None =>
          pokeid := pokeid[u := 1];
          r := SelectionReset;
        case Some(row) =>
          r := Shown(row);
      }
    }

    // -------------------------------------------------------------
    // pokecord/dev.py
    // -------------------------------------------------------------

    /**
     * `dev spawn` as written: a found entry is passed to `spawn_pokemon`
     * as the keyword `pokemon`, which that method does not accept, so the
     * call raises `TypeError` and the named spawn never happens.
     */
    method DevSpawnAsWritten(g: GuildId, ch: ChannelId, name: Option<string>, num: int, choice: nat) returns (r: Reply)
      requires 1 <= num <= 200 && choice < (if num > 2 then |normal| else |mega|)
      modifies this`spawned
      ensures name.None? ==> r == Done && spawned == old(spawned)[(g, ch) := Choose(normal, mega, num, choice)]
      ensures name.Some? ==> spawned == old(spawned)
      ensures name.Some? ==>
        (r == Raised <==> exists i :: 0 <= i < |catalog| && SpawnName(catalog[i]) == name.value)
      ensures name.Some? && r != Raised ==> r == NotFound
    {
      if name.None? {
        SpawnPokemon(g, ch, num, choice);
        return Done;
      }
      var found := FindSpawn(catalog, name.value);
      match found {
        case None =>
          r := NotFound;
        case Some(i) =>
          r := Raised;
      }
    }

    /**
     * `dev spawn` as intended: with no name, a random spawn; otherwise
     * the first catalog entry `FindSpawn` finds takes the channel's spawn
     * slot, and a name it does not find changes nothing.
     */
    method DevSpawn(g: GuildId, ch: ChannelId, name: Option<string>, num: int, choice: nat) returns (r: Reply)
      requires 1 <= num <= 200 && choice < (if num > 2 then |normal| else |mega|)
      modifies this`spawned
      ensures name.None? ==> r == Done && spawned == old(spawned)[(g, ch) := Choose(normal, mega, num, choice)]
      ensures name.Some? ==>
        (r == NotFound <==> forall j :: 0 <= j < |catalog| ==> SpawnName(catalog[j]) != name.value)
      ensures name.Some? && r != NotFound ==> r == Done
      ensures name.Some? && r != NotFound ==>
        exists i :: 0 <= i < |catalog| && SpawnName(catalog[i]) == name.value
          && (forall j :: 0 <= j < i ==> SpawnName(catalog[j]) != name.value)
          && spawned == old(spawned)[(g, ch) := catalog[i]]
      ensures r == NotFound ==> spawned == old(spawned)
    {
      if name.None? {
        SpawnPokemon(g, ch, num, choice);
        return Done;
      }
      var found := FindSpawn(catalog, name.value);
      match found {
        case None =>
          r := NotFound;
        case Some(i) =>
          spawned := spawned[(g, ch) := catalog[i]];
          r := Done;
      }
    }

    /**
     * `dev ivs`: slot 1..N of `user` gets exactly the six given IVs,
     * rewritten under its own key; any other slot changes nothing.
     */
    method DevIvs(user: UserId, slot: int, hp: int, attack: int, defence: int, spAtk: int, spDef: int, speed: int)
      returns (r: Reply)
      requires Valid()
      modifies this`table
      ensures Valid()
      ensures slot <= 0 ==> r == IdNotPositive
      ensures slot > |old(Rows(user))| ==> r == NoSuchSlot
      ensures 1 <= slot <= |old(Rows(user))| ==> r == Done
      ensures r != Done ==> table == old(table)
      ensures r == Done ==> 1 <= slot <= |old(Rows(user))|
      ensures r == Done && 1 <= slot <= |old(Rows(user))| ==>
        var row := old(Rows(user))[slot - 1];
        var p := row.pokemon.(ivs := SixStats(hp, attack, defence, spAtk, spDef, speed));
        && table == Upsert(old(table), user, row.key, p)
        && Rows(user) == old(Rows(user))[slot - 1 := Row(p, row.key)]
        && (forall v :: v != user ==> Rows(v) == old(Rows(v)))
    {
      if slot <= 0 {
        return IdNotPositive;
      }
      var pokemons := SentinelSlots(table, user);
      if slot >= |pokemons| {
        return NoSuchSlot;
      }
      var row := pokemons[slot].value;
      var pokemon := row.pokemon.(ivs := SixStats(hp, attack, defence, spAtk, spDef, speed));
      Rewrite(user, slot - 1, row.key, pokemon);
      r := Done;
    }

    /**
     * `dev stats`: slot 1..N of `user` gets exactly the six given stats,
     * rewritten under its own key; any other slot changes nothing.
     */
    method DevStats(user: UserId, slot: int, hp: int, attack: int, defence: int, spAtk: int, spDef: int, speed: int)
      returns (r: Reply)
      requires Valid()
      modifies this`table
      ensures Valid()
      ensures slot <= 0 ==> r == IdNotPositive
      ensures slot > |old(Rows(user))| ==> r == NoSuchSlot
      ensures 1 <= slot <= |old(Rows(user))| ==> r == Done
      ensures r != Done ==> table == old(table)
      ensures r == Done ==> 1 <= slot <= |old(Rows(user))|
      ensures r == Done && 1 <= slot <= |old(Rows(user))| ==>
        var row := old(Rows(user))[slot - 1];
        var p := row.pokemon.(stats := SixStats(hp, attack, defence, spAtk, spDef, speed));
        && table == Upsert(old(table), user, row.key, p)
        && Rows(user) == old(Rows(user))[slot - 1 := Row(p, row.key)]
        && (forall v :: v != user ==> Rows(v) == old(Rows(v)))
    {
      if slot <= 0 {
        return IdNotPositive;
      }
      var pokemons := SentinelSlots(table, user);
      if slot >= |pokemons| {
        return NoSuchSlot;
      }
      var row := pokemons[slot].value;
      var pokemon := row.pokemon.(stats := SixStats(hp, attack, defence, spAtk, spDef, speed));
      Rewrite(user, slot - 1, row.key, pokemon);
      r := Done;
    }

    // -------------------------------------------------------------
    // pokecord/trading.py
    // -------------------------------------------------------------

    /**
     * `trade`: `author` offers the pokémon at slot `id` to `user` for a
     * price. Ids above N are refused; there is no lower guard, so id 0
     * hits the `None` head and crashes and negative ids count from the
     * end. Every prompt can end the trade with nothing changed, and so
     * can a price `user` cannot pay. On acceptance the row moves to `user`
     * under the command's message id, the selection is repaired with the
     * raw `id`, and the price is settled (see `Settle`).
     */
    method Trade(author: UserId, user: UserId, id: int, confirm: Answer, price: Option<int>,
                 accept: Answer, msgId: Key) returns (r: Reply)
      requires Valid() && Newer(table, msgId)
      modifies this`table, this`pokeid, this`balance
      ensures Valid()
      ensures id > |old(Rows(author))| ==> r == NoSuchSlot
      ensures id <= |old(Rows(author))| && TradeIndex(|old(Rows(author))|, id).None? ==> r == Raised
      ensures TradeIndex(|old(Rows(author))|, id).Some? ==>
        r == Negotiation(confirm, price, old(balance), user, accept)
      ensures r != Done ==> table == old(table) && pokeid == old(pokeid) && balance == old(balance)
      ensures r == Done ==>
        TradeIndex(|old(Rows(author))|, id).Some? && price.Some? && CanSpend(old(balance), user, price.value)
      ensures r == Done && TradeIndex(|old(Rows(author))|, id).Some? && price.Some? ==>
        var rows := old(Rows(author));
        var i := TradeIndex(|rows|, id).value;
        && table == Insert(Delete(old(table), rows[i].key), user, msgId, rows[i].pokemon)
        && (user != author ==>
              && Rows(author) == Without(rows, i + 1)
              && Rows(user) == old(Rows(user)) + [Row(rows[i].pokemon, msgId)])
        && (forall v :: v != author && v != user ==> Rows(v) == old(Rows(v)))
        && Selected(author) == Repair(id, old(Selected(author)))
        && pokeid == (if id > old(Selected(author)) then old(pokeid) else old(pokeid)[author := Selected(author)])
        && balance == Settle(old(balance), user, author, price.value, maxBalance)
    {
      var pokemons := SentinelSlots(table, author);
      assert pokemons == Sentinel(Rows(author));
      if id >= |pokemons| {
        return NoSuchSlot;
      }
      TradeIndexIsPyIndex(Rows(author), id);
      var pokemon := PyIndex(pokemons, id);
      if pokemon.None? || pokemon.value.None? {
        return Raised;
      }
      var row := pokemon.value.value;
      r := Offer(author, user, id, TradeIndex(|pokemons| - 1, id).value, row.key, confirm, price, accept, msgId);
    }

    /**
     * The prompts of `trade` once the slot is found (the author's
     * confirmation, the price, the counterparty's acceptance) and, when
     * all pass, the exchange: the row moves, the selection is repaired
     * with the raw `id`, and the price is settled.
     */
    method Offer(author: UserId, user: UserId, id: int, i: nat, key: Key, confirm: Answer, price: Option<int>,
                 accept: Answer, msgId: Key) returns (r: Reply)
      requires Valid() && Newer(table, msgId)
      requires i < |Rows(author)| && key == Rows(author)[i].key
      modifies this`table, this`pokeid, this`balance
      ensures Valid()
      ensures r == Negotiation(confirm, price, old(balance), user, accept)
      ensures r != Done ==> table == old(table) && pokeid == old(pokeid) && balance == old(balance)
      ensures r == Done ==> price.Some? && CanSpend(old(balance), user, price.value)
      ensures r == Done && price.Some? ==>
        var rows := old(Rows(author));
        && table == Insert(Delete(old(table), key), user, msgId, rows[i].pokemon)
        && (user != author ==>
              && Rows(author) == Without(rows, i + 1)
              && Rows(user) == old(Rows(user)) + [Row(rows[i].pokemon, msgId)])
        && (forall v :: v != author && v != user ==> Rows(v) == old(Rows(v)))
        && Selected(author) == Repair(id, old(Selected(author)))
        && pokeid == (if id > old(Selected(author)) then old(pokeid) else old(pokeid)[author := Selected(author)])
        && balance == Settle(old(balance), user, author, price.value, maxBalance)
    {
      match confirm {
        case Timeout => return TimedOut;
        case No => return Cancelled;
        case Yes =>
      }
      if price.None? {
        return TimedOut;
      }
      var bal := price.value;
      if !CanSpend(balance, user, bal) {
        return CannotAfford;
      }
      match accept {
        case Timeout => return TimedOut;
        case No => return Declined;
        case Yes =>
      }
      MoveRow(author, user, i, key, msgId);
      Reselect(author, id);
      Pay(user, author, bal);
      r := Done;
    }

    /**
     * The two statements of `trade` that move the row of slot `i`: a
     * delete by its key, then an insert for `user` under `msgId`.
     */
    method MoveRow(author: UserId, user: UserId, i: nat, key: Key, msgId: Key)
      requires Valid() && Newer(table, msgId)
      requires i < |Rows(author)| && key == Rows(author)[i].key
      modifies this`table
      ensures Valid()
      ensures var rows := old(Rows(author));
        && table == Insert(Delete(old(table), key), user, msgId, rows[i].pokemon)
        && (user != author ==>
              && Rows(author) == Without(rows, i + 1)
              && Rows(user) == old(Rows(user)) + [Row(rows[i].pokemon, msgId)])
        && (forall v :: v != author && v != user ==> Rows(v) == old(Rows(v)))
    {
      MoveSlot(table, author, user, i, msgId);
      table := Insert(Delete(table, key), user, msgId, Rows(author)[i].pokemon);
    }

    /**
     * The bank calls of an accepted `trade`: `user` is debited the price
     * and `author` credited up to the ceiling (see `Settle`).
     */
    method Pay(payer: UserId, payee: UserId, amount: int)
      requires CanSpend(balance, payer, amount)
      modifies this`balance
      ensures balance == Settle(old(balance), payer, payee, amount, maxBalance)
    {
      balance := balance[payer := Bal(balance, payer) - amount];
      if Bal(balance, payee) + amount > maxBalance {
        balance := balance[payee := maxBalance];
      } else {
        balance := balance[payee := Bal(balance, payee) + amount];
      }
    }
  }

  /**
   * `exp_gain`'s bonus loop: `for stat in pokemon["stats"]` adds each
   * stat's draw to that stat.
   */
  method AddStatBonus(stats: Stats, bonus: Stats) returns (r: Stats)
    requires BonusDraw(bonus)
    ensures r == AddBonus(stats, bonus)
  {
    r := stats;
    var todo := stats.Keys;
    while todo != {}
      invariant todo <= stats.Keys && r.Keys == stats.Keys
      invariant forall s :: s in stats && s !in todo ==> r[s] == stats[s] + bonus[s]
      invariant forall s :: s in todo ==> r[s] == stats[s]
      decreases todo
    {
      var s :| s in todo;
      r := r[s := r[s] + bonus[s]];
      todo := todo - {s};
    }
  }
}
