/**
 * The visit registry of the tracker: each state code maps to the raw status
 * string the client holds for it, and the statistics derived from it
 * (`updateStats` in public/app.js).
 */
module Visits {
  import opened Wrappers

  /** The four visit statuses; "none" is the absence of the state's key. */
  datatype Status = Ben | Matt | Both | Together

  /** The stat cards, which are also the categories of the visited-states list. */
  datatype Category = User1Card | User2Card | BothCard | TogetherCard

  /**
   * The registry as the client holds it (`stateData`): state id to the raw
   * status string. Values loaded from the server are not checked, so a value
   * outside the four status names can be present.
   */
  type Registry = map<string, string>

  /** The string the client stores and sends for a status. */
  function StatusName(s: Status): string
  {
    match s
    case Ben => "ben"
    case Matt => "matt"
    case Both => "both"
    case Together => "together"
  }

  /** Recognises a raw registry value; only the four exact names are statuses. */
  function ParseStatus(raw: string): (r: Option<Status>)
    ensures r.Some? ==> StatusName(r.value) == raw
    ensures r.None? ==> raw !in {"ben", "matt", "both", "together"}
  {
    if raw == "ben" then Some(Ben)
    else if raw == "matt" then Some(Matt)
    else if raw == "both" then Some(Both)
    else if raw == "together" then Some(Together)
    else None
  }

  lemma StatusNameRoundTrip(s: Status)
    ensures ParseStatus(StatusName(s)) == Some(s)
  {
  }

  /**
   * The inclusion rule: whether a state holding `raw` counts toward the stat
   * card `c`. Each individual counts "both" and "together"; the "both" card
   * also counts "together"; unrecognised values count nowhere.
   */
  predicate CountsToward(raw: string, c: Category)
  {
    match ParseStatus(raw)
    case None => false
    case Some(s) =>
      match c
      case User1Card => s in {Ben, Both, Together}
      case User2Card => s in {Matt, Both, Together}
      case BothCard => s in {Both, Together}
      case TogetherCard => s == Together
  }

  /** The values of the four stat cards. */
  datatype Counts = Counts(ben: nat, matt: nat, both: nat, together: nat)
  {
    function Of(c: Category): nat
    {
      match c
      case User1Card => ben
      case User2Card => matt
      case BothCard => both
      case TogetherCard => together
    }
  }

  const Zero := Counts(0, 0, 0, 0)

  /** One state holding `raw`: 1 on each card it counts toward, 0 elsewhere. */
  function Contribution(raw: string): Counts
  {
    Counts(if CountsToward(raw, User1Card) then 1 else 0, if CountsToward(raw, User2Card) then 1 else 0,
           if CountsToward(raw, BothCard) then 1 else 0, if CountsToward(raw, TogetherCard) then 1 else 0)
  }

  function Plus(a: Counts, b: Counts): Counts
  {
    Counts(a.ben + b.ben, a.matt + b.matt, a.both + b.both, a.together + b.together)
  }

  /** The states among `ks` that count toward card `c`. */
  function CountedIn(m: Registry, ks: set<string>, c: Category): set<string>
  {
    set k | k in ks && Counted(m, k, c)
  }

  /** State `k` is in the registry and counts toward card `c`. */
  predicate Counted(m: Registry, k: string, c: Category)
  {
    k in m && CountsToward(m[k], c)
  }

  /** The card values for the states among `ks`, by the inclusion rule. */
  function TallyOf(m: Registry, ks: set<string>): (r: Counts)
  {
    Counts(|CountedIn(m, ks, User1Card)|, |CountedIn(m, ks, User2Card)|,
           |CountedIn(m, ks, BothCard)|, |CountedIn(m, ks, TogetherCard)|)
  }

  /**
   * The percentage shown under a card: the count out of the 50 states, rounded
   * half up (`Math.round`), computed here on exact reals. It is always twice
   * the count, so no rounding ever happens.
   */
  function Percent(count: nat): (p: int)
    ensures p == 2 * count
  {
    (count as real / 50.0 * 100.0 + 0.5).Floor
  }

  /** The statistics of a whole registry. */
  function Tally(m: Registry): Counts
  {
    TallyOf(m, m.Keys)
  }

  lemma SubsetCard<T>(a: set<T>, b: set<T>)
    requires a <= b
    ensures |a| <= |b|
  {
    assert b == a + (b - a);
  }

  /**
   * Because every status implies the "lower" categories, the cards are
   * ordered: together <= both <= each individual <= number of marked states.
   */
  lemma TallyOrdered(m: Registry)
    ensures Tally(m).together <= Tally(m).both <= Tally(m).ben <= |m|
    ensures Tally(m).both <= Tally(m).matt <= |m|
  {
    var u1, u2 := CountedIn(m, m.Keys, User1Card), CountedIn(m, m.Keys, User2Card);
    var b, t := CountedIn(m, m.Keys, BothCard), CountedIn(m, m.Keys, TogetherCard);
    SubsetCard(t, b);
    SubsetCard(b, u1);
    SubsetCard(b, u2);
    SubsetCard(u1, m.Keys);
    SubsetCard(u2, m.Keys);
  }

  /** An empty registry shows zero on every card. */
  lemma TallyEmpty()
    ensures Tally(map[]) == Zero
  {
  }

  /** Adding one more state to `ks` adds its contribution to card `c`. */
  lemma TallyOfStep(m: Registry, ks: set<string>, k: string, c: Category)
    requires k in m && k !in ks
    ensures TallyOf(m, ks + {k}).Of(c) == TallyOf(m, ks).Of(c) + (if CountsToward(m[k], c) then 1 else 0)
  {
    if CountsToward(m[k], c) {
      assert CountedIn(m, ks + {k}, c) == CountedIn(m, ks, c) + {k};
    } else {
      assert CountedIn(m, ks + {k}, c) == CountedIn(m, ks, c);
    }
  }

  lemma SameCounts(a: Counts, b: Counts)
    requires forall c :: a.Of(c) == b.Of(c)
    ensures a == b
  {
    assert a.Of(User1Card) == b.Of(User1Card) && a.Of(User2Card) == b.Of(User2Card);
    assert a.Of(BothCard) == b.Of(BothCard) && a.Of(TogetherCard) == b.Of(TogetherCard);
  }

  /**
   * The counting loop of `updateStats`: every value of the registry is
   * visited once and bumps the counters of its if-chain.
   */
  method CountVisits(m: Registry) returns (counts: Counts)
    ensures counts == Tally(m)
  {
    counts := Zero;
    var rest := m.Keys;
    while rest != {}
      invariant rest <= m.Keys && counts == TallyOf(m, m.Keys - rest)
      decreases rest
    {
      var k :| k in rest;
      ghost var before := counts;
      counts := Bump(counts, m[k]);
      CountStep(m, rest, k, before, counts);
      rest := rest - {k};
    }
    assert m.Keys - rest == m.Keys;
  }

  /** The if-chain of one turn of the counting loop: the counters a status string bumps. */
  method Bump(counts: Counts, status: string) returns (after: Counts)
    ensures after == Plus(counts, Contribution(status))
  {
    after := counts;
    if status == "ben" {
      after := after.(ben := after.ben + 1);
    } else if status == "matt" {
      after := after.(matt := after.matt + 1);
    } else if status == "both" {
      after := after.(ben := after.ben + 1, matt := after.matt + 1, both := after.both + 1);
    } else if status == "together" {
      after := after.(ben := after.ben + 1, matt := after.matt + 1, both := after.both + 1,
                      together := after.together + 1);
    }
  }

  /** One turn of the counting loop adds the visited state's contribution to every card. */
  lemma CountStep(m: Registry, rest: set<string>, k: string, before: Counts, after: Counts)
    requires rest <= m.Keys && k in rest && before == TallyOf(m, m.Keys - rest)
    requires after == Plus(before, Contribution(m[k]))
    ensures after == TallyOf(m, m.Keys - (rest - {k}))
  {
    DoneGrows(m.Keys, rest, k);
    var done := m.Keys - rest;
    CardStep(m, done, k, before, after, User1Card);
    CardStep(m, done, k, before, after, User2Card);
    CardStep(m, done, k, before, after, BothCard);
    CardStep(m, done, k, before, after, TogetherCard);
  }

  lemma CardStep(m: Registry, done: set<string>, k: string, before: Counts, after: Counts, c: Category)
    requires k in m && k !in done && before.Of(c) == |CountedIn(m, done, c)|
    requires after == Plus(before, Contribution(m[k]))
    ensures after.Of(c) == |CountedIn(m, done + {k}, c)|
  {
    TallyOfStep(m, done, k, c);
  }

  lemma DoneGrows<T>(all: set<T>, rest: set<T>, k: T)
    requires rest <= all && k in rest
    ensures all - (rest - {k}) == (all - rest) + {k}
  {
  }

  /** The states counted after setting `k` to `raw`: those counted without `k`, plus `k` if `raw` counts. */
  lemma CountedInUpdate(m: Registry, k: string, raw: string, c: Category)
    ensures CountedIn(m[k := raw], m[k := raw].Keys, c)
            == CountedIn(m - {k}, (m - {k}).Keys, c) + (if CountsToward(raw, c) then {k} else {})
  {
    var m', rest := m[k := raw], m - {k};
    forall j | j in CountedIn(m', m'.Keys, c) && j != k ensures j in CountedIn(rest, rest.Keys, c) {
      assert m'[j] == m[j];
    }
    forall j | j in CountedIn(rest, rest.Keys, c) ensures j in CountedIn(m', m'.Keys, c) {
      assert m'[j] == m[j];
    }
  }

  /**
   * Setting state `k` to `raw` changes card `c` by the contribution of `raw`
   * alone, whatever `k` held before.
   */
  lemma TallyUpdate(m: Registry, k: string, raw: string, c: Category)
    ensures Tally(m[k := raw]).Of(c) == Tally(m - {k}).Of(c) + (if CountsToward(raw, c) then 1 else 0)
  {
    CountedInUpdate(m, k, raw, c);
    var without := CountedIn(m - {k}, (m - {k}).Keys, c);
    assert k !in without;
  }

  /** A value outside the four status names is ignored by the statistics. */
  lemma UnrecognisedIgnored(m: Registry, k: string, raw: string)
    requires ParseStatus(raw).None?
    ensures Tally(m[k := raw]) == Tally(m - {k})
  {
    forall c | true
      ensures Tally(m[k := raw]).Of(c) == Tally(m - {k}).Of(c)
    {
      TallyUpdate(m, k, raw, c);
    }
    SameCounts(Tally(m[k := raw]), Tally(m - {k}));
  }
}
