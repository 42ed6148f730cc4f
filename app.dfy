/**
 * The client's global state and the handlers that change it (public/app.js):
 * the registry, the state the dropdown was opened for, the presentation
 * settings and their editor inputs, and the open visited-states list.
 */
module App {
  import opened Wrappers
  import opened Visits
  import opened Settings
  import opened Paint
  import opened StatesList
  import opened Sorting
  import StateNames

  /** An item of the status dropdown: "None", or one of the four statuses. */
  datatype Choice = NoStatus | Mark(status: Status)

  /**
   * The dropdown's change to the registry: "None" deletes the state's key,
   * a status assigns its name. No other state changes.
   */
  function Select(m: Registry, id: string, c: Choice): (r: Registry)
    ensures forall k :: k != id ==> (k in r <==> k in m) && (k in m ==> r[k] == m[k])
    ensures c == NoStatus ==> id !in r
    ensures c.Mark? ==> id in r && ParseStatus(r[id]) == Some(c.status)
  {
    match c
    case NoStatus => m - {id}
    case Mark(s) => m[id := StatusName(s)]
  }

  /** Choosing the same item twice changes nothing the second time. */
  lemma SelectIdempotent(m: Registry, id: string, c: Choice)
    ensures Select(Select(m, id, c), id, c) == Select(m, id, c)
  {
    var once := Select(m, id, c);
    assert Select(once, id, c).Keys == once.Keys;
  }

  /**
   * After a choice the known status classes give way to the chosen status's
   * class and colour, or the shape is cleared for "None"; restyling never
   * throws, since the dropdown writes only the four names.
   */
  lemma SelectPaints(shape: Shape, m: Registry, id: string, c: Choice, colors: Colors)
    ensures c == NoStatus ==> StateColor(shape, Select(m, id, c), id, colors) == Styled(Shape(shape.classes - KnownClasses, Cleared))
    ensures c.Mark? ==> StateColor(shape, Select(m, id, c), id, colors)
                        == Styled(Shape(shape.classes - KnownClasses + {"status-" + StatusName(c.status)}, Painted(colors.For(c.status))))
  {
  }

  /**
   * After a choice each card counts the other states as before, plus the
   * chosen status's contribution.
   */
  lemma SelectTally(m: Registry, id: string, c: Choice, cat: Category)
    ensures Tally(Select(m, id, c)).Of(cat)
            == Tally(m - {id}).Of(cat) + (if c.Mark? && CountsToward(StatusName(c.status), cat) then 1 else 0)
  {
    if c.Mark? {
      TallyUpdate(m, id, StatusName(c.status), cat);
    }
  }

  /** What the dropdown handler redraws: the chosen state's shape and the cards. */
  datatype Repaint = Repaint(style: Restyle, counts: Counts)

  class Tracker {
    var stateData: Registry
    var currentState: Option<string>
    var customColors: Colors
    var customNames: Names
    var colorInputs: Colors
    var nameInputs: Names
    var currentModalCategory: Option<Category>
    var currentVisitedStates: seq<Entry>

    /** Start-up: an empty registry and copies of the default settings. */
    constructor()
      ensures stateData == map[] && currentState == None
      ensures customColors == DefaultColors && customNames == DefaultNames
      ensures currentModalCategory == None && currentVisitedStates == []
    {
      stateData := map[];
      currentState := None;
      customColors := DefaultColors;
      customNames := DefaultNames;
      colorInputs := DefaultColors;
      nameInputs := DefaultNames;
      currentModalCategory := None;
      currentVisitedStates := [];
    }

    /**
     * `loadData`: the registry becomes the server's mapping, or empty when the
     * request fails (`response` is None).
     */
    method LoadData(response: Option<Registry>)
      modifies this`stateData
      ensures stateData == if response.Some? then response.value else map[]
    {
      match response
      case Some(data) => stateData := data;
      case None => stateData := map[];
    }

    /**
     * `loadSettings`: each key present in the answer replaces that setting
     * wholesale and a missing key keeps the current one; a failure resets both
     * to the defaults.
     */
    method LoadSettings(response: SettingsResponse)
      modifies this`customColors, this`customNames
      ensures response.LoadFailed? ==> customColors == DefaultColors && customNames == DefaultNames
      ensures response.Loaded? ==>
                && customColors == (if response.colors.Some? then response.colors.value else old(customColors))
                && customNames == (if response.names.Some? then response.names.value else old(customNames))
    {
      match response
      case LoadFailed =>
        customColors := DefaultColors;
        customNames := DefaultNames;
      case Loaded(colors, names) =>
        if colors.Some? {
          customColors := colors.value;
        }
        if names.Some? {
          customNames := names.value;
        }
    }

    /** `handleStateClick`: the dropdown opens for the clicked state. */
    method ClickState(id: string)
      modifies this`currentState
      ensures currentState == Some(id)
    {
      currentState := Some(id);
    }

    /** `updateStats`: the card values of the current registry and their percentages of the 50 states. */
    method UpdateStats() returns (counts: Counts, percents: Counts)
      ensures counts == Tally(stateData)
      ensures percents == Counts(Percent(counts.ben), Percent(counts.matt), Percent(counts.both), Percent(counts.together))
      ensures forall c :: percents.Of(c) == 2 * counts.Of(c)
      ensures counts.together <= counts.both <= counts.ben <= |stateData|
      ensures counts.both <= counts.matt <= |stateData|
    {
      counts := CountVisits(stateData);
      TallyOrdered(stateData);
      percents := Counts(Percent(counts.ben), Percent(counts.matt), Percent(counts.both), Percent(counts.together));
    }

    /**
     * The dropdown handler: when an item was hit and a state is open, the
     * registry takes the choice for that state, the state's shape (as it was
     * on the page, `shape`) and the cards are redrawn, and the dropdown
     * forgets the state. Otherwise nothing changes.
     */
    method ChooseStatus(item: Option<Choice>, shape: Shape) returns (repaint: Option<Repaint>)
      modifies this`stateData, this`currentState
      ensures repaint.Some? <==> item.Some? && old(currentState).Some? && old(currentState).value != ""
      ensures repaint.None? ==> stateData == old(stateData) && currentState == old(currentState)
      ensures repaint.Some? ==>
                && stateData == Select(old(stateData), old(currentState).value, item.value)
                && repaint.value.style == StateColor(shape, stateData, old(currentState).value, customColors)
                && repaint.value.style.Styled?
                && repaint.value.counts == Tally(stateData)
                && currentState == None
    {
      if item.Some? && currentState.Some? && currentState.value != "" {
        var id := currentState.value;
        match item.value {
          case NoStatus => stateData := stateData - {id};
          case Mark(s) => stateData := stateData[id := StatusName(s)];
        }
        var style := StateColor(shape, stateData, id, customColors);
        var counts, _ := UpdateStats();
        repaint := Some(Repaint(style, counts));
        currentState := None;
      } else {
        repaint := None;
      }
    }

    /** The names editor opens with the current names in its inputs. */
    method OpenNamesEditor()
      modifies this`nameInputs
      ensures nameInputs == customNames
    {
      nameInputs := customNames;
    }

    /** The user types into the name inputs. */
    method EditNameInputs(user1: string, user2: string)
      modifies this`nameInputs
      ensures nameInputs == Names(user1, user2)
    {
      nameInputs := Names(user1, user2);
    }

    /**
     * The save-names handler: refused, with the names unchanged, when either
     * trimmed input is empty; otherwise the names become the trimmed pair.
     */
    method SaveNames() returns (saved: bool)
      modifies this`customNames
      ensures saved <==> !Blank(nameInputs.user1) && !Blank(nameInputs.user2)
      ensures customNames == if saved then Names(Trim(nameInputs.user1), Trim(nameInputs.user2)) else old(customNames)
    {
      var checked := ValidateNames(nameInputs.user1, nameInputs.user2);
      saved := checked.Some?;
      if saved {
        customNames := checked.value;
      }
    }

    /**
     * The confirm-reset handler: the registry is emptied only when the reset
     * request succeeds; on failure it is left as it was.
     */
    method ConfirmReset(ok: bool)
      modifies this`stateData
      ensures ok ==> stateData == map[] && Tally(stateData) == Zero
      ensures !ok ==> stateData == old(stateData)
    {
      if ok {
        stateData := map[];
        TallyEmpty();
      }
    }

    /** The colour editor opens with the current colours in its pickers. */
    method OpenColorEditor()
      modifies this`colorInputs
      ensures colorInputs == customColors
    {
      colorInputs := customColors;
    }

    /** The user picks a colour for one status. */
    method EditColorInput(s: Status, color: string)
      modifies this`colorInputs
      ensures colorInputs.For(s) == color
      ensures forall t :: t != s ==> colorInputs.For(t) == old(colorInputs).For(t)
    {
      match s
      case Ben => colorInputs := colorInputs.(ben := color);
      case Matt => colorInputs := colorInputs.(matt := color);
      case Both => colorInputs := colorInputs.(both := color);
      case Together => colorInputs := colorInputs.(together := color);
    }

    /** "Reset to default" only puts the default colours in the pickers. */
    method ResetColorInputs()
      modifies this`colorInputs
      ensures colorInputs == DefaultColors
    {
      colorInputs := DefaultColors;
    }

    /** The save-colours handler: the colours become the four picker values. */
    method SaveColors()
      modifies this`customColors
      ensures customColors == colorInputs
    {
      customColors := Colors(colorInputs.ben, colorInputs.matt, colorInputs.both, colorInputs.together);
    }

    /**
     * `renderStatesList`: a sorted copy of the open list, by name or by visit
     * kind then name; any other order keeps the list's own order. The open
     * list itself is not changed.
     */
    method RenderStatesList(sortOrder: string) returns (shown: seq<Entry>)
      requires OrderingOf(sortOrder).Some? ==> AllComparable(OrderingOf(sortOrder).value, currentVisitedStates)
      ensures multiset(shown) == multiset(currentVisitedStates)
      ensures OrderingOf(sortOrder).Some? ==>
                AllComparable(OrderingOf(sortOrder).value, shown) && Sorted(OrderingOf(sortOrder).value, shown)
      ensures OrderingOf(sortOrder).None? ==> shown == currentVisitedStates
    {
      var copy := currentVisitedStates;
      var states := new Entry[|copy|](i requires 0 <= i < |copy| => copy[i]);
      assert states[..] == copy;
      var order := OrderingOf(sortOrder);
      if order.Some? {
        SortEntries(states, order.value);
      }
      shown := states[..];
    }

    /**
     * `showStatesList`: the list of `cat` is collected from the registry,
     * kept open, and shown sorted by name.
     */
    method ShowStatesList(cat: Category) returns (shown: seq<Entry>)
      requires forall id :: id in stateData && Listed(cat, stateData[id]) ==> id in StateNames.Names
      modifies this`currentModalCategory, this`currentVisitedStates
      ensures currentModalCategory == Some(cat)
      ensures Ids(currentVisitedStates) == ListedIds(stateData, cat) && DistinctIds(currentVisitedStates)
      ensures forall i :: 0 <= i < |currentVisitedStates| ==>
                currentVisitedStates[i].id in stateData &&
                currentVisitedStates[i] == EntryFor(stateData, StateNames.Names, cat, currentVisitedStates[i].id)
      ensures multiset(shown) == multiset(currentVisitedStates)
      ensures AllComparable(ByName, shown) && Sorted(ByName, shown)
    {
      currentModalCategory := Some(cat);
      var visitedStates := CollectVisited(stateData, StateNames.Names, cat);
      currentVisitedStates := visitedStates;
      assert AllComparable(ByName, currentVisitedStates) by {
        forall i | 0 <= i < |visitedStates| ensures Comparable(ByName, visitedStates[i]) {
          var id := visitedStates[i].id;
          assert id in Ids(visitedStates);
        }
      }
      shown := RenderStatesList("alphabetical");
    }
  }
}
