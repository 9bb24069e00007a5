/**
 * The values the cog stores: a pokémon record as kept in the `pokemon`
 * JSON column, and a listing row `[pokemon, message_id]`.
 */
module Records {
  import opened Wrappers

  type UserId = int
  type GuildId = int
  type ChannelId = int
  /** A Discord message id; the `message_id` column that keys every row. */
  type Key = int

  /** The six keys of the `stats` and `ivs` dictionaries. */
  datatype Stat = HP | Attack | Defence | SpAtk | SpDef | Speed

  type Stats = map<Stat, int>

  /** The dictionary literal `{"HP": hp, "Attack": attack, ...}`. */
  function SixStats(hp: int, attack: int, defence: int, spAtk: int, spDef: int, speed: int): Stats
  {
    map[HP := hp, Attack := attack, Defence := defence, SpAtk := spAtk, SpDef := spDef, Speed := speed]
  }

  function StatOr0(m: Stats, s: Stat): int
  {
    if s in m then m[s] else 0
  }

  /** `sum(m.values())` */
  function StatTotal(m: Stats): int
  {
    StatOr0(m, HP) + StatOr0(m, Attack) + StatOr0(m, Defence)
      + StatOr0(m, SpAtk) + StatOr0(m, SpDef) + StatOr0(m, Speed)
  }

  /**
   * A pokémon record. `name` is the (localised) name as one opaque
   * string; a catalog entry carries the same fields, `level` and `xp`
   * being set on capture.
   */
  datatype Pokemon = Pokemon(
    name: string,
    alias: Option<string>,
    id: int,
    level: int,
    xp: int,
    stats: Stats,
    ivs: Stats,
    nickname: Option<string>,
    variant: Option<string>,
    gender: Option<string>,
    types: seq<string>)

  /** One element of a user's listing: the record and its `message_id`. */
  datatype Row = Row(pokemon: Pokemon, key: Key)

  /** A yes/no prompt: the reply, or the `asyncio.TimeoutError`. */
  datatype Answer = Yes | No | Timeout

  /**
   * Python's `s[i]`: negative indices count from the end; `None` is the
   * `IndexError`.
   */
  function PyIndex<X>(s: seq<X>, i: int): Option<X>
  {
    if 0 <= i < |s| then Some(s[i])
    else if -|s| <= i < 0 then Some(s[|s| + i])
    else None
  }
}
