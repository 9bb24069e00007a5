/**
 * The computations of `pokecord/pokecord.py` that do not touch state:
 * the spawn counter step, the choice of the spawned pokémon, the names
 * `catch` accepts, and the experience rule of `exp_gain`.
 */
module PokecordRules {
  import opened Wrappers
  import opened Records
  import opened Text

  // ---------------------------------------------------------------
  // Spawn trigger
  // ---------------------------------------------------------------

  /** `self.maybe_spawn[guild]`: messages counted, and the drawn threshold. */
  datatype Counter = Counter(amount: int, spawnchance: int)

  /** `spawn_chance`: the count has passed the threshold. */
  predicate SpawnChance(c: Counter)
  {
    c.amount > c.spawnchance
  }

  /**
   * One qualifying message in guild `g`: create the counter with the
   * drawn threshold if it is missing, count the message, and consume the
   * counter when it passes its threshold. The flag says a spawn is due.
   */
  function Count(m: map<GuildId, Counter>, g: GuildId, draw: int): (r: (map<GuildId, Counter>, bool))
    ensures forall h :: h != g ==> (h in r.0 <==> h in m) && (h in m ==> r.0[h] == m[h])
    ensures r.1 <==> g !in r.0
    ensures g in r.0 ==> r.0[g].spawnchance == (if g in m then m[g].spawnchance else draw)
    ensures r.1 <==> (if g in m then m[g].amount + 1 > m[g].spawnchance else 1 > draw)
    ensures g in r.0 ==> r.0[g].amount == (if g in m then m[g].amount else 0) + 1
  {
    var c := if g in m then m[g] else Counter(0, draw);
    var c' := c.(amount := c.amount + 1);
    if SpawnChance(c') then (m - {g}, true) else (m[g := c'], false)
  }

  /** Several qualifying messages in `g`, with one threshold draw each. */
  function Run(m: map<GuildId, Counter>, g: GuildId, draws: seq<int>): (map<GuildId, Counter>, seq<bool>)
    decreases |draws|
  {
    if draws == [] then (m, [])
    else
      var (m1, fired) := Count(m, g, draws[0]);
      var (m2, later) := Run(m1, g, draws[1..]);
      (m2, [fired] + later)
  }

  function Falses(n: nat): seq<bool>
  {
    seq(n, _ => false)
  }

  lemma {:induction false} RunFrom(m: map<GuildId, Counter>, g: GuildId, draws: seq<int>, a: int, t: int)
    requires g in m && m[g] == Counter(a, t) && a <= t
    requires |draws| == t - a + 1
    ensures Run(m, g, draws).1 == Falses(t - a) + [true]
    ensures g !in Run(m, g, draws).0
    ensures forall h :: h != g ==> (h in Run(m, g, draws).0 <==> h in m)
    decreases |draws|
  {
    var (m1, fired) := Count(m, g, draws[0]);
    if a == t {
      assert draws[1..] == [];
    } else {
      assert m1[g] == Counter(a + 1, t);
      RunFrom(m1, g, draws[1..], a + 1, t);
      assert [false] + Falses(t - (a + 1)) + [true] == Falses(t - a) + [true];
    }
  }

  /**
   * With no counter for the guild and a drawn threshold `t`, the first
   * `t` messages spawn nothing and message `t + 1` spawns and consumes
   * the counter; other guilds' counters are neither created nor removed.
   */
  lemma SpawnOnMessageAfterThreshold(m: map<GuildId, Counter>, g: GuildId, draws: seq<int>)
    requires g !in m && |draws| >= 1 && draws[0] >= 0 && |draws| == draws[0] + 1
    ensures Run(m, g, draws).1 == Falses(draws[0]) + [true]
    ensures g !in Run(m, g, draws).0
    ensures forall h :: h != g ==> (h in Run(m, g, draws).0 <==> h in m)
  {
    var t := draws[0];
    var (m1, fired) := Count(m, g, t);
    if t == 0 {
      assert draws[1..] == [];
    } else {
      assert m1[g] == Counter(1, t);
      RunFrom(m1, g, draws[1..], 1, t);
      assert [false] + Falses(t - 1) + [true] == Falses(t) + [true];
    }
  }

  // ---------------------------------------------------------------
  // Spawning and catching
  // ---------------------------------------------------------------

  /**
   * `pokemon_choose`: `num` is the 1..200 draw and `pick` the index
   * `random.choice` takes; only draws of 1 and 2 choose a mega.
   */
  function Choose(normal: seq<Pokemon>, mega: seq<Pokemon>, num: int, pick: nat): (p: Pokemon)
    requires 1 <= num <= 200
    requires pick < (if num > 2 then |normal| else |mega|)
    ensures num <= 2 ==> p in mega
    ensures num > 2 ==> p in normal
  {
    if num > 2 then normal[pick] else mega[pick]
  }

  /** The lowercased names `catch` accepts for a spawn. */
  function CatchNames(p: Pokemon): seq<string>
  {
    [Lower(p.name), Lower(StripPunct(p.name))]
      + (if p.alias.Some? then [Lower(p.alias.value), Lower(StripPunct(p.alias.value))] else [])
  }

  /** `pokemon.lower() in names` */
  predicate Accepts(p: Pokemon, guess: string)
  {
    Lower(guess) in CatchNames(p)
  }

  /** The guess is compared case-insensitively: lowering it first changes nothing. */
  lemma AcceptsLowered(p: Pokemon, guess: string)
    ensures Accepts(p, Lower(guess)) == Accepts(p, guess)
  {
    LowerIdempotent(guess);
  }

  /**
   * A name wrapped in punctuation ("Farfetch'd." or "(Ho-Oh)") is also
   * caught by its core, and so is an alias: `strip` removes exactly the
   * punctuation around it.
   */
  lemma AcceptsStrippedName(p: Pokemon, pre: string, core: string, post: string)
    requires AllPunct(pre) && AllPunct(post) && Bare(core)
    requires p.name == pre + core + post || (p.alias.Some? && p.alias.value == pre + core + post)
    ensures Accepts(p, core)
  {
    StripPunctOfWrapped(pre, core, post);
    if p.name == pre + core + post {
      assert Lower(core) == CatchNames(p)[1];
    } else {
      assert Lower(core) == CatchNames(p)[3];
    }
  }

  // ---------------------------------------------------------------
  // Experience
  // ---------------------------------------------------------------

  /** `calc_xp`: the experience a level needs. */
  function CalcXp(lvl: int): (r: int)
    ensures r == 25 * lvl
  {
    5 * lvl * 5
  }

  /** The threshold grows strictly with the level. */
  lemma CalcXpIncreasing(a: int, b: int)
    requires a < b
    ensures CalcXp(a) < CalcXp(b)
  {
  }

  /** A stat bonus draw: `random.randint(1, 3)` for every stat. */
  predicate BonusDraw(bonus: Stats)
  {
    forall s: Stat :: s in bonus && 1 <= bonus[s] <= 3
  }

  /** Every stat raised by its bonus. */
  function AddBonus(stats: Stats, bonus: Stats): (r: Stats)
    requires BonusDraw(bonus)
    ensures r.Keys == stats.Keys
    ensures forall s :: s in r ==> stats[s] + 1 <= r[s] <= stats[s] + 3
  {
    map s | s in stats :: stats[s] + bonus[s]
  }

  /**
   * The record `exp_gain` means to write back: `gain` experience added;
   * at `calc_xp(level)` the level goes up by one, experience restarts at
   * 0 and every stat gains 1 to 3. Nothing else about the pokémon
   * changes.
   */
  function GainXp(p: Pokemon, gain: int, bonus: Stats): (q: Pokemon)
    requires BonusDraw(bonus)
    ensures q == p.(level := q.level, xp := q.xp, stats := q.stats)
    ensures q.level == p.level + 1 <==> p.xp + gain >= CalcXp(p.level)
    ensures q.level != p.level + 1 ==> q.level == p.level && q.xp == p.xp + gain && q.stats == p.stats
    ensures q.level == p.level + 1 ==> q.xp == 0 && q.stats == AddBonus(p.stats, bonus)
  {
    var xp := p.xp + gain;
    if xp >= CalcXp(p.level) then
      p.(level := p.level + 1, xp := 0, stats := AddBonus(p.stats, bonus))
    else
      p.(xp := xp)
  }

  /** A grant never pushes experience to or past the threshold of the new level. */
  lemma GainXpBelowThreshold(p: Pokemon, gain: int, bonus: Stats)
    requires BonusDraw(bonus) && p.level >= 1 && 0 <= p.xp && gain >= 0
    ensures var q := GainXp(p, gain, bonus); 0 <= q.xp < CalcXp(q.level)
  {
  }

  /** Successive grants to one record, sharing one bonus draw. */
  function Grants(p: Pokemon, gains: seq<int>, bonus: Stats): Pokemon
    requires BonusDraw(bonus)
    decreases |gains|
  {
    if gains == [] then p else Grants(GainXp(p, gains[0], bonus), gains[1..], bonus)
  }

  function Sum(xs: seq<int>): int
  {
    if xs == [] then 0 else xs[0] + Sum(xs[1..])
  }

  /**
   * Levelling takes time: while the total gain leaves experience below
   * `calc_xp(level)`, the level stays and experience is the running sum;
   * with gains of at most 4 a level-`L` pokémon at 0 experience needs
   * more than `25 * L / 4 - 1` grants, each at least 120 seconds apart.
   */
  lemma {:induction false} NoLevelBeforeThreshold(p: Pokemon, gains: seq<int>, bonus: Stats)
    requires BonusDraw(bonus)
    requires forall i :: 0 <= i < |gains| ==> 1 <= gains[i] <= 4
    requires p.xp + Sum(gains) < CalcXp(p.level)
    ensures Grants(p, gains, bonus).level == p.level
    ensures Grants(p, gains, bonus).xp == p.xp + Sum(gains)
    decreases |gains|
  {
    if gains != [] {
      var q := GainXp(p, gains[0], bonus);
      SumPositive(gains[1..]);
      assert q.xp == p.xp + gains[0];
      NoLevelBeforeThreshold(q, gains[1..], bonus);
    }
  }

  lemma {:induction false} SumPositive(xs: seq<int>)
    requires forall i :: 0 <= i < |xs| ==> xs[i] >= 1
    ensures Sum(xs) >= |xs|
    decreases |xs|
  {
    if xs != [] {
      SumPositive(xs[1..]);
    }
  }

  lemma {:induction false} SumAtMostFour(xs: seq<int>)
    requires forall i :: 0 <= i < |xs| ==> xs[i] <= 4
    ensures Sum(xs) <= 4 * |xs|
    decreases |xs|
  {
    if xs != [] {
      SumAtMostFour(xs[1..]);
    }
  }

  /** Few enough grants of at most 4 never level a pokémon that starts at 0 experience. */
  lemma FewGrantsNoLevel(p: Pokemon, gains: seq<int>, bonus: Stats)
    requires BonusDraw(bonus) && p.xp == 0
    requires forall i :: 0 <= i < |gains| ==> 1 <= gains[i] <= 4
    requires 4 * |gains| < CalcXp(p.level)
    ensures Grants(p, gains, bonus).level == p.level
  {
    SumAtMostFour(gains);
    NoLevelBeforeThreshold(p, gains, bonus);
  }

  /**
   * `exp_gain` as written: the level-up branch reads `userconf["toggle"]`,
   * a key the user settings never register, so the `KeyError` ends the
   * handler before the upsert: nothing is written (`None`).
   */
  function GainXpAsWritten(p: Pokemon, gain: int): (r: Option<Pokemon>)
    ensures r.Some? ==> r.value.level == p.level
  {
    if p.xp + gain >= CalcXp(p.level) then None else Some(p.(xp := p.xp + gain))
  }

  /** The stored record as written, after several grants. */
  function GrantsAsWritten(p: Pokemon, gains: seq<int>): Pokemon
    decreases |gains|
  {
    if gains == [] then p
    else
      match GainXpAsWritten(p, gains[0])
      case None => GrantsAsWritten(p, gains[1..])
      case Some(q) => GrantsAsWritten(q, gains[1..])
  }

  /**
   * As written, no number of grants ever raises a stored level, and
   * experience stays below the threshold of that level.
   */
  lemma {:induction false} AsWrittenNeverLevels(p: Pokemon, gains: seq<int>)
    requires p.xp < CalcXp(p.level)
    ensures GrantsAsWritten(p, gains).level == p.level
    ensures GrantsAsWritten(p, gains).xp < CalcXp(p.level)
    decreases |gains|
  {
    if gains != [] {
      match GainXpAsWritten(p, gains[0])
      case None => AsWrittenNeverLevels(p, gains[1..]);
      case Some(q) => AsWrittenNeverLevels(q, gains[1..]);
    }
  }

  /**
   * The input that shows it: a level-1 pokémon at 24 experience gaining
   * 1 should reach level 2; as written the record stays at level 1.
   */
  lemma LevelUpLostAsWritten(p: Pokemon, bonus: Stats)
    requires BonusDraw(bonus) && p.level == 1 && p.xp == 24
    ensures GainXpAsWritten(p, 1) == None
    ensures GainXp(p, 1, bonus).level == 2 && GainXp(p, 1, bonus).xp == 0
  {
  }

  /** `exp_gain`'s loop target: the first pokémon in listing order below level 100. */
  function FirstBelowCap(rows: seq<Row>): (r: Option<nat>)
    ensures r.Some? ==> r.value < |rows| && rows[r.value].pokemon.level < 100
    ensures r.Some? ==> forall j :: 0 <= j < r.value ==> rows[j].pokemon.level >= 100
    ensures r.None? ==> forall j :: 0 <= j < |rows| ==> rows[j].pokemon.level >= 100
  {
    if rows == [] then None
    else if rows[0].pokemon.level < 100 then Some(0)
    else
      match FirstBelowCap(rows[1..])
      case None => None
      case Some(i) => Some(i + 1)
  }
}
