/**
 * The visited-states list opened from a stat card (`showStatesList` in
 * public/app.js): which states it shows for a category and how each is
 * labelled.
 */
module StatesList {
  import opened Wrappers
  import opened Visits

  /** How a user visited a state, as the user lists label it. */
  datatype VisitKind = Individual | Separately | Jointly

  /** One row of the list: the state's code, its name and its label. */
  datatype Entry = Entry(id: string, name: Option<string>, visitType: Option<VisitKind>)

  /**
   * The label chain: for a user card, the status of that user alone is
   * "Individual", `both` is "Separately" and `together` is "Together"
   * (`Jointly` here); the other cards, and the other statuses, get no label.
   */
  function Label(cat: Category, raw: string): (r: Option<VisitKind>)
    ensures r.Some? ==> (cat == User1Card || cat == User2Card) && ParseStatus(raw).Some?
  {
    match cat
    case User1Card =>
      if raw == "ben" then Some(Individual)
      else if raw == "both" then Some(Separately)
      else if raw == "together" then Some(Jointly)
      else None
    case User2Card =>
      if raw == "matt" then Some(Individual)
      else if raw == "both" then Some(Separately)
      else if raw == "together" then Some(Jointly)
      else None
    case BothCard => None
    case TogetherCard => None
  }

  /** Whether a state holding `raw` is pushed onto the list of `cat`. */
  predicate Listed(cat: Category, raw: string)
    ensures Listed(cat, raw) ==> CountsToward(raw, cat)
  {
    || Label(cat, raw).Some?
    || (cat == BothCard && raw == "both")
    || (cat == TogetherCard && raw == "together")
  }

  /**
   * The row pushed for state `id`; its name is looked up in the table of state
   * names `names` (undefined for a code the table lacks).
   */
  function EntryFor(m: Registry, names: map<string, string>, cat: Category, id: string): (r: Entry)
    requires id in m
    ensures r.visitType.Some? ==> Listed(cat, m[id])
    ensures r.name.Some? <==> id in names
  {
    Entry(id, if id in names then Some(names[id]) else None, Label(cat, m[id]))
  }

  /** The states the list of `cat` shows. */
  function ListedIds(m: Registry, cat: Category): set<string>
  {
    set id | id in m && Listed(cat, m[id])
  }

  /** The codes of the rows of a list. */
  function Ids(list: seq<Entry>): set<string>
  {
    set i | 0 <= i < |list| :: list[i].id
  }

  /** No state appears twice in a list. */
  predicate DistinctIds(list: seq<Entry>)
  {
    forall i, j :: 0 <= i < j < |list| ==> list[i].id != list[j].id
  }

  lemma IdsAppend(list: seq<Entry>, e: Entry)
    ensures Ids(list + [e]) == Ids(list) + {e.id}
  {
    var l' := list + [e];
    assert l'[|list|] == e;
    forall i | 0 <= i < |list| ensures l'[i] == list[i] { }
  }

  /** A list with no repeated state has one row per state. */
  lemma {:induction false} DistinctIdsCard(list: seq<Entry>)
    requires DistinctIds(list)
    ensures |Ids(list)| == |list|
  {
    if list != [] {
      var rest := list[1..];
      DistinctIdsCard(rest);
      assert Ids(list) == Ids(rest) + {list[0].id};
      assert list[0].id !in Ids(rest);
    }
  }

  /**
   * What the filtering loop knows once every state outside `rest` is visited:
   * `list` holds the rows of exactly the listed states visited, each once.
   */
  predicate Collected(m: Registry, names: map<string, string>, cat: Category, list: seq<Entry>, rest: set<string>)
  {
    && rest <= m.Keys
    && (forall i :: 0 <= i < |list| ==> list[i].id in m && list[i] == EntryFor(m, names, cat, list[i].id))
    && Ids(list) == ListedIds(m, cat) - rest
    && DistinctIds(list)
  }

  /** Visiting state `id` keeps the loop's knowledge. */
  lemma CollectStep(m: Registry, names: map<string, string>, cat: Category, list: seq<Entry>, rest: set<string>, id: string)
    requires Collected(m, names, cat, list, rest) && id in rest
    ensures Listed(cat, m[id]) ==> Collected(m, names, cat, list + [EntryFor(m, names, cat, id)], rest - {id})
    ensures !Listed(cat, m[id]) ==> Collected(m, names, cat, list, rest - {id})
  {
    var e := EntryFor(m, names, cat, id);
    assert id !in Ids(list);
    IdsAppend(list, e);
    var list' := list + [e];
    assert forall i :: 0 <= i < |list| ==> list'[i] == list[i];
  }

  /**
   * The filtering loop of `showStatesList`: every state of the registry is
   * visited once and, when it is listed, its row is pushed. The result holds
   * exactly the listed states, each once, with their labels.
   */
  method CollectVisited(m: Registry, names: map<string, string>, cat: Category) returns (list: seq<Entry>)
    ensures forall i :: 0 <= i < |list| ==> list[i].id in m && list[i] == EntryFor(m, names, cat, list[i].id)
    ensures Ids(list) == ListedIds(m, cat)
    ensures DistinctIds(list)
    ensures |list| == |ListedIds(m, cat)|
  {
    list := [];
    var rest := m.Keys;
    while rest != {}
      invariant Collected(m, names, cat, list, rest)
      decreases rest
    {
      var stateId :| stateId in rest;
      var status := m[stateId];
      var visitType := Label(cat, status);
      CollectStep(m, names, cat, list, rest, stateId);
      if visitType.Some? || (cat == BothCard && status == "both") || (cat == TogetherCard && status == "together") {
        list := list + [Entry(stateId, if stateId in names then Some(names[stateId]) else None, visitType)];
      }
      rest := rest - {stateId};
    }
    DistinctIdsCard(list);
  }

  /**
   * The labels of a user list follow the inclusion rule: a state is labelled
   * for a user exactly when it counts toward that user's card, "Individual"
   * for the user's own status, "Separately" for `both`, "Together" for
   * `together`; the `both` and `together` lists carry no label.
   */
  lemma LabelFollowsInclusion(cat: Category, raw: string)
    ensures cat == User1Card || cat == User2Card ==> (Label(cat, raw).Some? <==> CountsToward(raw, cat))
    ensures Label(cat, raw) == Some(Individual) <==>
              (cat == User1Card && ParseStatus(raw) == Some(Ben)) || (cat == User2Card && ParseStatus(raw) == Some(Matt))
    ensures Label(cat, raw) == Some(Separately) <==>
              (cat == User1Card || cat == User2Card) && ParseStatus(raw) == Some(Both)
    ensures Label(cat, raw) == Some(Jointly) <==>
              (cat == User1Card || cat == User2Card) && ParseStatus(raw) == Some(Status.Together)
  {
  }

  /**
   * The user lists and the `together` list show exactly the states their card
   * counts, so their length is the card's value.
   */
  lemma {:induction false} ListMatchesCard(m: Registry, cat: Category)
    requires cat != BothCard
    ensures ListedIds(m, cat) == CountedIn(m, m.Keys, cat)
    ensures |ListedIds(m, cat)| == Tally(m).Of(cat)
  {
    forall id | id in m ensures Listed(cat, m[id]) <==> CountsToward(m[id], cat) {
      LabelFollowsInclusion(cat, m[id]);
    }
  }

  /**
   * The `both` card counts `together` states but its list leaves them out: the
   * `both` and `together` lists are disjoint and together hold what the `both`
   * card counts.
   */
  lemma {:induction false} BothListOmitsTogether(m: Registry)
    ensures ListedIds(m, BothCard) !! ListedIds(m, TogetherCard)
    ensures ListedIds(m, BothCard) + ListedIds(m, TogetherCard) == CountedIn(m, m.Keys, BothCard)
    ensures |ListedIds(m, BothCard)| + |ListedIds(m, TogetherCard)| == Tally(m).both
  {
    var b, t, counted := ListedIds(m, BothCard), ListedIds(m, TogetherCard), CountedIn(m, m.Keys, BothCard);
    forall id | id in m
      ensures (id in b <==> m[id] == "both") && (id in t <==> m[id] == "together")
      ensures id in counted <==> m[id] == "both" || m[id] == "together"
    {
    }
    assert b !! t;
    assert b + t == counted;
    assert |b + t| == |b| + |t|;
  }
}
