/**
 * The dashboard's file selection: the set of paths picked for analysis,
 * never more than twenty of them when every change goes through the two
 * operations here. A refusal or a cap that the source reports with an
 * alert is returned as a boolean.
 */
module Selection {
  import opened Common
  import opened Files

  /** The most files the dashboard lets the user pick at a time. */
  const MaxSelected: int := 20

  /** What `toggleFileSelection` makes of the selection, and whether it refused. */
  function Toggled(selected: set<string>, path: string): (set<string>, bool)
  {
    if path in selected then (selected - {path}, false)
    else if |selected| >= MaxSelected then (selected, true)
    else (selected + {path}, false)
  }

  /** Within the limit, toggling a path twice gives back the selection, unless the first toggle was refused. */
  lemma ToggleTwice(selected: set<string>, path: string)
    requires |selected| <= MaxSelected
    ensures !Toggled(selected, path).1 ==> Toggled(Toggled(selected, path).0, path).0 == selected
    ensures Toggled(selected, path).1 ==> Toggled(selected, path).0 == selected && path !in selected
  {
    if path in selected {
      assert |selected - {path}| == |selected| - 1;
    }
  }

  /** A toggle never takes a selection of at most twenty paths above twenty. */
  lemma ToggleKeepsLimit(selected: set<string>, path: string)
    requires |selected| <= MaxSelected
    ensures |Toggled(selected, path).0| <= MaxSelected
    ensures path in Toggled(selected, path).0 <==> (path !in selected && |selected| < MaxSelected)
  {
  }

  /** `array.slice(0, end)`: the length kept, where a negative end counts back from the length. */
  function SliceEnd(length: nat, end: int): (n: nat)
    ensures n <= length
    ensures 0 <= end ==> n == if end < length then end else length
    ensures end < 0 ==> n == if length + end < 0 then 0 else length + end
  {
    if end >= 0 then (if end < length then end else length)
    else if length + end < 0 then 0
    else length + end
  }

  /** The paths of a list, as a set. */
  function PathSet(s: seq<string>): (r: set<string>)
    ensures forall p :: p in r <==> p in s
  {
    set p | p in s
  }

  /** Adding the paths of a list grows a set by at most the list's length. */
  lemma {:induction false} PathSetSize(a: set<string>, s: seq<string>)
    ensures |a + PathSet(s)| <= |a| + |s|
  {
    if s != [] {
      var init := s[..|s| - 1];
      PathSetSize(a, init);
      assert s == init + [s[|s| - 1]];
      assert a + PathSet(s) == (a + PathSet(init)) + {s[|s| - 1]};
    }
  }

  /**
   * The paths `selectAllFiltered` adds: the filtered files, in order, up
   * to as many as the room left under the limit.
   */
  function Taken(selected: set<string>, filtered: seq<string>): (r: seq<string>)
    ensures |selected| <= MaxSelected ==> |r| <= MaxSelected - |selected|
    ensures |selected| <= MaxSelected && |filtered| <= MaxSelected - |selected| ==> r == filtered
  {
    filtered[..SliceEnd(|filtered|, MaxSelected - |selected|)]
  }

  /** A selection within the limit stays within it after the filtered files are added. */
  lemma SelectAllKeepsLimit(selected: set<string>, filtered: seq<string>)
    requires |selected| <= MaxSelected
    ensures |selected + PathSet(Taken(selected, filtered))| <= MaxSelected
  {
    PathSetSize(selected, Taken(selected, filtered));
  }

  /** The selection kept by the dashboard. */
  class FileSelection {
    var selected: set<string>

    /** At most twenty files are picked. */
    predicate Valid()
      reads this
    {
      |selected| <= MaxSelected
    }

    constructor()
      ensures selected == {}
      ensures Valid()
    {
      selected := {};
    }

    /**
     * `toggleFileSelection`: a picked path is dropped; another is added
     * unless twenty are picked already, in which case nothing changes and
     * the refusal is reported.
     */
    method Toggle(path: string) returns (refused: bool)
      modifies this
      ensures (selected, refused) == Toggled(old(selected), path)
      ensures old(Valid()) ==> Valid()
    {
      if path in selected {
        selected := selected - {path};
        refused := false;
      } else if |selected| >= MaxSelected {
        refused := true;
      } else {
        selected := selected + {path};
        refused := false;
      }
    }

    /**
     * `selectAllFiltered`: the filtered files are added one by one, at most
     * as many as the room left; `capped` reports that some were left out.
     */
    method SelectAllFiltered(files: seq<string>, fileFilter: string, languageFilter: string) returns (capped: bool)
      modifies this
      ensures var filtered := GetFilteredFiles(files, fileFilter, languageFilter);
              selected == old(selected) + PathSet(Taken(old(selected), filtered))
              && capped == (|filtered| > MaxSelected - |old(selected)|)
      ensures old(Valid()) ==> Valid()
    {
      var filtered := GetFilteredFiles(files, fileFilter, languageFilter);
      var remaining := MaxSelected - |selected|;
      var taken := filtered[..SliceEnd(|filtered|, remaining)];
      ghost var before := selected;
      var i := 0;
      while i < |taken|
        invariant 0 <= i <= |taken|
        invariant selected == before + PathSet(taken[..i])
      {
        assert taken[..i + 1] == taken[..i] + [taken[i]];
        selected := selected + {taken[i]};
        i := i + 1;
      }
      assert taken[..i] == taken;
      if |before| <= MaxSelected {
        SelectAllKeepsLimit(before, filtered);
      }
      capped := |filtered| > remaining;
    }
  }
}
