/**
 * `re.search(r"at (.+)$", s)` and its group 1, the pattern the alert and
 * laytime commands use to pick a port name out of a message
 * (backend/app.py:201 and backend/app.py:213).
 *
 * Python's `re` without flags: `.` matches any character but a line feed, and
 * `$` matches at the very end or just before a line feed that ends the string.
 * The search tries start positions from left to right and keeps the first
 * one at which the whole pattern matches.
 */
module AtPattern {
  import opened Wrappers
  import opened PyStr

  /** The first line feed at or after `j`, or the end of `s`. */
  function LineEnd(s: string, j: nat): (k: nat)
    requires j <= |s|
    ensures j <= k <= |s|
    ensures forall i :: j <= i < k ==> s[i] != '\n'
    ensures k < |s| ==> s[k] == '\n'
    decreases |s| - j
  {
    if j == |s| || s[j] == '\n' then j else LineEnd(s, j + 1)
  }

  /** Where `$` matches. */
  predicate EndAnchor(s: string, k: nat) {
    k == |s| || (k == |s| - 1 && s[k] == '\n')
  }

  /**
   * `(.+)$` tried at position `j`. The greedy `.+` first takes the rest of the
   * line; giving characters back never helps, because `$` cannot hold in the
   * middle of a line.
   */
  function GroupAt(s: string, j: nat): Option<string>
    requires j <= |s|
  {
    var k := LineEnd(s, j);
    if j < k && EndAnchor(s, k) then Some(s[j..k]) else None
  }

  /** The regular expression's own meaning: group `g` completes a match of `(.+)$` at `j`. */
  predicate TailMatch(s: string, j: nat, g: string) {
    && g != []
    && '\n' !in g
    && j + |g| <= |s|
    && s[j..j + |g|] == g
    && EndAnchor(s, j + |g|)
  }

  /** `GroupAt` finds a match of `(.+)$` exactly when one exists, and that match is the only one. */
  lemma GroupAtIff(s: string, j: nat, g: string)
    requires j <= |s|
    ensures GroupAt(s, j) == Some(g) <==> TailMatch(s, j, g)
  {
    var k := LineEnd(s, j);
    if GroupAt(s, j) == Some(g) {
      assert forall i :: 0 <= i < |g| ==> g[i] == s[j + i];
    }
    if TailMatch(s, j, g) {
      assert forall i :: j <= i < j + |g| ==> s[i] == g[i - j];
      assert k == j + |g|;
    }
  }

  /** The whole pattern matches when started at `i`. */
  predicate MatchesAt(s: string, i: nat) {
    OccursAt(s, "at ", i) && GroupAt(s, i + 3).Some?
  }

  /** The leftmost start position at or after `from` where the pattern matches. */
  function MatchStart(s: string, from: nat): (r: Option<nat>)
    ensures r.Some? ==> from <= r.value && MatchesAt(s, r.value)
    ensures r.Some? ==> forall j :: from <= j < r.value ==> !MatchesAt(s, j)
    ensures r.None? ==> forall j :: from <= j ==> !MatchesAt(s, j)
    decreases |s| - from
  {
    if from + 3 > |s| then None
    else if MatchesAt(s, from) then Some(from)
    else MatchStart(s, from + 1)
  }

  /** `m = re.search(r"at (.+)$", s)`, giving `m.group(1)` or `None`. */
  function SearchAt(s: string): Option<string> {
    match MatchStart(s, 0)
    case None => None
    case Some(i) => GroupAt(s, i + 3)
  }

  /** Whatever the search returns is a non-empty rest of a line preceded by "at ". */
  lemma SearchAtSound(s: string)
    requires SearchAt(s).Some?
    ensures exists i :: OccursAt(s, "at ", i) && TailMatch(s, i + 3, SearchAt(s).value)
  {
    var i := MatchStart(s, 0).value;
    GroupAtIff(s, i + 3, SearchAt(s).value);
  }

  /** No "at " in the message, no match: the callers' fallback applies. */
  lemma SearchAtNeedsAt(s: string)
    requires !Contains(s, "at ")
    ensures SearchAt(s) == None
  {
    if MatchStart(s, 0).Some? {
      ContainsIff(s, "at ");
      assert OccursAt(s, "at ", MatchStart(s, 0).value);
      assert false;
    }
  }

  /**
   * On a single line that does not end in a space (every stripped chat
   * message without a line feed), the group is everything after the
   * LEFTMOST "at ", even when those letters end a longer word.
   */
  lemma SearchAtOneLine(s: string)
    requires '\n' !in s
    requires s == [] || s[|s| - 1] != ' '
    ensures SearchAt(s) == match Find(s, "at ") case None => None case Some(i) => Some(s[i + 3..])
  {
    forall j: nat | OccursAt(s, "at ", j)
      ensures MatchesAt(s, j) && GroupAt(s, j + 3) == Some(s[j + 3..])
    {
      assert s[j + 2] == ' ';
      GroupAtIff(s, j + 3, s[j + 3..]);
    }
    var f := Find(s, "at ");
    var m := MatchStart(s, 0);
    if f.Some? {
      assert m.Some?;
      assert m.value == f.value;
    } else {
      assert m.None?;
    }
  }
}
