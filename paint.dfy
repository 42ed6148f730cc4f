/** How a state's shape on the map is coloured (`updateStateColor` in public/app.js). */
module Paint {
  import opened Visits
  import opened Settings

  /** The shape's fill: cleared (the empty string) or a colour. */
  datatype Fill = Cleared | Painted(color: string)

  /** What `updateStateColor` reads and writes of a shape: its class list and its fill. */
  datatype Shape = Shape(classes: set<string>, fill: Fill)

  /**
   * The outcome of restyling a shape: it completes, or `classList.add` throws
   * after the known status classes were already removed.
   */
  datatype Restyle = Styled(shape: Shape) | Threw(shape: Shape)

  /** The four classes `updateStateColor` removes before adding the new one. */
  const KnownClasses: set<string> := {"status-ben", "status-matt", "status-both", "status-together"}

  /** A class the status part of `updateStateColor` could have added: `status-<something>`. */
  predicate IsStatusClass(c: string)
  {
    |c| >= 7 && c[..7] == "status-"
  }

  /** The ASCII white space that a class-list token may not contain (tab, line feed, form feed, carriage return, space). */
  predicate IsAsciiSpace(c: char)
  {
    c == '\t' || c == '\n' || c == '\U{000C}' || c == '\r' || c == ' '
  }

  predicate HasAsciiSpace(s: string)
  {
    exists k :: 0 <= k < |s| && IsAsciiSpace(s[k])
  }

  /**
   * `updateStateColor`: a missing or empty status counts as "none". The four
   * known status classes are removed first. Then "none" clears the fill; any
   * other status string adds the class `status-<status>` and assigns the
   * colour stored for it. A status outside the four has no stored colour, and
   * assigning `undefined` leaves the fill as it was. A status holding ASCII
   * white space is not a valid class token, so adding it throws.
   */
  function StateColor(shape: Shape, m: Registry, id: string, colors: Colors): (r: Restyle)
    ensures (id !in m || m[id] in {"", "none"}) ==> r == Styled(Shape(shape.classes - KnownClasses, Cleared))
    ensures forall s :: id in m && m[id] == StatusName(s) ==>
              r == Styled(Shape(shape.classes - KnownClasses + {"status-" + StatusName(s)}, Painted(colors.For(s))))
    ensures r.Threw? <==> id in m && HasAsciiSpace(m[id])
    ensures id in m && m[id] !in {"", "none"} && ParseStatus(m[id]).None? ==> r.shape.fill == shape.fill
    ensures forall c :: c in shape.classes && c !in KnownClasses ==> c in r.shape.classes
    ensures forall c :: c in r.shape.classes && c !in shape.classes ==> id in m && r.Styled? && c == "status-" + m[id]
    ensures id in m && m[id] !in {"", "none"} && r.Styled? ==> "status-" + m[id] in r.shape.classes
    ensures forall c :: c in r.shape.classes && c in KnownClasses ==> id in m && c == "status-" + m[id]
  {
    var status := if id in m && m[id] != "" then m[id] else "none";
    var kept := shape.classes - KnownClasses;
    if status == "none" then
      Styled(Shape(kept, Cleared))
    else if HasAsciiSpace(status) then
      Threw(Shape(kept, shape.fill))
    else
      Styled(Shape(kept + {"status-" + status},
                   match ParseStatus(status) case Some(s) => Painted(colors.For(s)) case None => shape.fill))
  }

  /** The shape carries at most one `status-*` class. */
  predicate OneStatusClass(shape: Shape)
  {
    forall c, d :: c in shape.classes && d in shape.classes && IsStatusClass(c) && IsStatusClass(d) ==> c == d
  }

  /**
   * When the shape carries no status class other than the four known ones
   * (as a shape fresh from `loadMap` does), restyling leaves it with at most
   * one status class.
   */
  lemma StatusClassAtMostOne(shape: Shape, m: Registry, id: string, colors: Colors)
    requires forall c :: c in shape.classes && IsStatusClass(c) ==> c in KnownClasses
    ensures OneStatusClass(StateColor(shape, m, id, colors).shape)
  {
    var r := StateColor(shape, m, id, colors).shape;
    forall c | c in r.classes && IsStatusClass(c) ensures id in m && c == "status-" + m[id] {
      assert c !in shape.classes - KnownClasses;
    }
  }

  /** An unrecognised value adds its own class, `status-visited` for the value "visited", and keeps the fill. */
  lemma UnknownStatusClass(colors: Colors)
    ensures StateColor(Shape({"state-path"}, Cleared), map["TX" := "visited"], "TX", colors)
            == Styled(Shape({"state-path", "status-visited"}, Cleared))
  {
    assert !HasAsciiSpace("visited") by {
      forall k | 0 <= k < |"visited"| ensures !IsAsciiSpace("visited"[k]) { }
    }
    assert {"state-path"} - KnownClasses == {"state-path"} by {
      assert |"state-path"| == 10;
    }
    assert "visited" != "none" && ParseStatus("visited").None?;
    assert "status-" + "visited" == "status-visited";
  }

  /**
   * The class of an unrecognised status is not one of the four removed, so it
   * survives a later restyle: setting the state to "ben" leaves the shape
   * with both `status-visited` and `status-ben`.
   */
  lemma StaleClassSurvives(shape: Shape, colors: Colors)
    requires "status-visited" in shape.classes
    ensures var r := StateColor(shape, map["TX" := "ben"], "TX", colors);
            && r.Styled? && "status-visited" in r.shape.classes && "status-ben" in r.shape.classes
            && !OneStatusClass(r.shape)
  {
    var visited, ben := "status-visited", "status-ben";
    assert visited !in KnownClasses by {
      assert |visited| == 14;
    }
    assert map["TX" := "ben"]["TX"] == StatusName(Ben) && ben == "status-" + StatusName(Ben);
    assert visited[..7] == "status-" && ben[..7] == "status-";
    assert visited != ben by {
      assert |visited| != |ben|;
    }
  }
}
