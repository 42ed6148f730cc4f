/**
 * Presentation settings: the colour of each status and the display names of
 * the two users, with their defaults and the validation applied when names
 * are saved (public/app.js).
 */
module Settings {
  import opened Wrappers
  import opened Visits

  /** A fill colour per status (`customColors`); the strings are not validated. */
  datatype Colors = Colors(ben: string, matt: string, both: string, together: string)
  {
    /** The colour painted for a state holding status `s`. */
    function For(s: Status): string
    {
      match s
      case Ben => ben
      case Matt => matt
      case Both => both
      case Together => together
    }
  }

  /** The display names of the two users (`customNames`). */
  datatype Names = Names(user1: string, user2: string)

  const DefaultColors := Colors("#ffd700", "#ff69b4", "#90ee90", "#87ceeb")
  const DefaultNames := Names("User 1", "User 2")

  /**
   * The characters JavaScript's `String.prototype.trim` removes: the
   * ECMAScript WhiteSpace (tab, vertical tab, form feed, space, no-break
   * space, byte order mark and the Unicode space separators) and
   * LineTerminator (line feed, carriage return, line and paragraph
   * separators) code points.
   */
  predicate IsSpace(c: char)
  {
    || c == ' ' || ('\t' <= c <= '\r') || c == '\U{00A0}' || c == '\U{1680}'
    || ('\U{2000}' <= c <= '\U{200A}') || ('\U{2028}' <= c <= '\U{2029}')
    || c == '\U{202F}' || c == '\U{205F}' || c == '\U{3000}' || c == '\U{FEFF}'
  }

  /** Every character of `s` is white space (true of the empty string). */
  predicate Blank(s: string)
  {
    forall k :: 0 <= k < |s| ==> IsSpace(s[k])
  }

  /** The first position at or after `i` that does not hold white space (or the end). */
  function SkipSpaces(s: string, i: nat): (j: nat)
    requires i <= |s|
    ensures i <= j <= |s|
    ensures forall k :: i <= k < j ==> IsSpace(s[k])
    ensures j < |s| ==> !IsSpace(s[j])
    decreases |s| - i
  {
    if i < |s| && IsSpace(s[i]) then SkipSpaces(s, i + 1) else i
  }

  /** The end of `s[lo..hi]` once its trailing white space is dropped. */
  function SkipSpacesBack(s: string, lo: nat, hi: nat): (e: nat)
    requires lo <= hi <= |s|
    ensures lo <= e <= hi
    ensures forall k :: e <= k < hi ==> IsSpace(s[k])
    ensures lo < e ==> !IsSpace(s[e - 1])
  {
    if lo < hi && IsSpace(s[hi - 1]) then SkipSpacesBack(s, lo, hi - 1) else hi
  }

  /** Where the trimmed text starts in `s`: the length of its leading white space. */
  function TrimStart(s: string): nat
  {
    SkipSpaces(s, 0)
  }

  /**
   * JavaScript's `trim`: what is left of `s` after dropping its leading and
   * its trailing white space. It is empty exactly when `s` is blank, and
   * otherwise starts and ends with a character that is not white space.
   */
  function Trim(s: string): (r: string)
    ensures TrimStart(s) + |r| <= |s| && r == s[TrimStart(s)..TrimStart(s) + |r|]
    ensures forall k :: 0 <= k < TrimStart(s) ==> IsSpace(s[k])
    ensures forall k :: TrimStart(s) + |r| <= k < |s| ==> IsSpace(s[k])
    ensures r == [] <==> Blank(s)
    ensures r != [] ==> !IsSpace(r[0]) && !IsSpace(r[|r| - 1])
  {
    var i := SkipSpaces(s, 0);
    var e := SkipSpacesBack(s, i, |s|);
    assert e == i ==> Blank(s) by {
      if e == i {
        forall k | 0 <= k < |s| ensures IsSpace(s[k]) {
          if k < i {} else {}
        }
      }
    }
    s[i..e]
  }

  /** Trimming twice is trimming once. */
  lemma TrimIdempotent(s: string)
    ensures Trim(Trim(s)) == Trim(s)
  {
    var r := Trim(s);
    if r != [] {
      assert SkipSpaces(r, 0) == 0;
      assert SkipSpacesBack(r, 0, |r|) == |r|;
      assert r[0..|r|] == r;
    }
  }

  /**
   * The check of the save-names handler: both inputs are trimmed and the save
   * is refused when either is empty; otherwise the names become the trimmed
   * pair, which is never empty and carries no surrounding white space.
   */
  function ValidateNames(input1: string, input2: string): (r: Option<Names>)
    ensures r.Some? <==> !Blank(input1) && !Blank(input2)
    ensures r.Some? ==> r.value == Names(Trim(input1), Trim(input2))
    ensures r.Some? ==> r.value.user1 != "" && r.value.user2 != ""
  {
    var name1, name2 := Trim(input1), Trim(input2);
    if name1 == "" || name2 == "" then None else Some(Names(name1, name2))
  }

  /** Saved names pass the check again unchanged: re-saving them is a no-op. */
  lemma ValidateNamesStable(input1: string, input2: string)
    requires ValidateNames(input1, input2).Some?
    ensures ValidateNames(ValidateNames(input1, input2).value.user1, ValidateNames(input1, input2).value.user2)
            == ValidateNames(input1, input2)
  {
    TrimIdempotent(input1);
    TrimIdempotent(input2);
  }

  /** The answer to the settings request: a failure, or either key, both or neither. */
  datatype SettingsResponse = LoadFailed | Loaded(colors: Option<Colors>, names: Option<Names>)
}
