/** The roster editor of the admin page: add a person at the end, remove
    the person at a position, move a person one place up or down, and hand
    every edited roster to the page's save callback. */
module RosterEditor {
  import opened Models
  import opened OnCallService

  datatype Direction = Up | Down

  /** The roster without the entry at `index`, as `filter((_, i) => i !== index)`
      leaves it: the other entries in their order, all of them when `index`
      names no entry. */
  function Removed(roster: seq<OnCallPerson>, index: int): (r: seq<OnCallPerson>)
    ensures 0 <= index < |roster| ==>
              |r| == |roster| - 1
              && (forall j :: 0 <= j < index ==> r[j] == roster[j])
              && (forall j :: index <= j < |r| ==> r[j] == roster[j + 1])
    ensures !(0 <= index < |roster|) ==> r == roster
    decreases |roster|
  {
    if roster == [] then []
    else (if index == 0 then [] else [roster[0]]) + Removed(roster[1..], index - 1)
  }

  /** Removing an entry takes exactly that entry out of the roster. */
  lemma RemovedTakesOne(roster: seq<OnCallPerson>, index: int)
    requires 0 <= index < |roster|
    ensures Removed(roster, index) == roster[..index] + roster[index + 1..]
    ensures multiset(Removed(roster, index)) + multiset{roster[index]} == multiset(roster)
  {
    RemovedIsSplice(roster, index);
    SpliceMultiset(roster, index);
  }

  lemma RemovedIsSplice(roster: seq<OnCallPerson>, index: int)
    requires 0 <= index < |roster|
    ensures Removed(roster, index) == roster[..index] + roster[index + 1..]
  {
    var r := Removed(roster, index);
    var spliced := roster[..index] + roster[index + 1..];
    assert |r| == |spliced|;
    forall j | 0 <= j < |r|
      ensures r[j] == spliced[j]
    {
      if j < index {
        assert spliced[j] == roster[j];
      } else {
        assert spliced[j] == roster[j + 1];
      }
    }
  }

  lemma SpliceMultiset(roster: seq<OnCallPerson>, index: int)
    requires 0 <= index < |roster|
    ensures multiset(roster[..index] + roster[index + 1..]) + multiset{roster[index]} == multiset(roster)
  {
    assert roster == roster[..index] + [roster[index]] + roster[index + 1..];
  }

  /** Removing the entry just added gives the roster back. */
  lemma RemoveUndoesAdd(roster: seq<OnCallPerson>, person: OnCallPerson)
    ensures Removed(roster + [person], |roster|) == roster
  {
    var r := Removed(roster + [person], |roster|);
    assert |r| == |roster|;
    assert forall j :: 0 <= j < |roster| ==> r[j] == roster[j];
  }

  /** The roster with entries `i` and `j` exchanged. */
  function Swapped(roster: seq<OnCallPerson>, i: int, j: int): seq<OnCallPerson>
    requires 0 <= i < |roster| && 0 <= j < |roster|
  {
    roster[i := roster[j]][j := roster[i]]
  }

  /** The roster after moving entry `index` one place: up swaps it with the
      entry before, down with the entry after, and at either end nothing
      moves. */
  function Moved(roster: seq<OnCallPerson>, index: int, direction: Direction): seq<OnCallPerson>
    requires 0 <= index < |roster|
  {
    if direction == Up && index > 0 then Swapped(roster, index - 1, index)
    else if direction == Down && index < |roster| - 1 then Swapped(roster, index + 1, index)
    else roster
  }

  /** A move keeps the same people, changes only the two places it swaps,
      and does nothing at the ends. */
  lemma MovedIsPermutation(roster: seq<OnCallPerson>, index: int, direction: Direction)
    requires 0 <= index < |roster|
    ensures |Moved(roster, index, direction)| == |roster|
    ensures multiset(Moved(roster, index, direction)) == multiset(roster)
    ensures (direction == Up && index == 0) || (direction == Down && index == |roster| - 1) ==>
              Moved(roster, index, direction) == roster
    ensures direction == Up && index > 0 ==>
              var m := Moved(roster, index, direction);
              m[index - 1] == roster[index] && m[index] == roster[index - 1]
              && forall j :: 0 <= j < |roster| && j != index - 1 && j != index ==> m[j] == roster[j]
    ensures direction == Down && index < |roster| - 1 ==>
              var m := Moved(roster, index, direction);
              m[index + 1] == roster[index] && m[index] == roster[index + 1]
              && forall j :: 0 <= j < |roster| && j != index && j != index + 1 ==> m[j] == roster[j]
  {
    if direction == Up && index > 0 {
      SwapKeepsPeople(roster, index - 1, index);
    } else if direction == Down && index < |roster| - 1 {
      SwapKeepsPeople(roster, index + 1, index);
    }
  }

  lemma SwapKeepsPeople(roster: seq<OnCallPerson>, i: int, j: int)
    requires 0 <= i < |roster| && 0 <= j < |roster| && i != j
    ensures multiset(Swapped(roster, i, j)) == multiset(roster)
  {
    var a := roster[i := roster[j]];
    assert multiset(a) == multiset(roster) - multiset{roster[i]} + multiset{roster[j]};
    assert multiset(a[j := roster[i]]) == multiset(a) - multiset{a[j]} + multiset{roster[i]};
  }

  /** Moving a person up and then back down restores the roster. */
  lemma MoveDownUndoesMoveUp(roster: seq<OnCallPerson>, index: int)
    requires 0 < index < |roster|
    ensures Moved(Moved(roster, index, Up), index - 1, Down) == roster
  {
  }

  /** The configuration handed to `onSave`: the page's configuration with
      only the roster replaced. */
  function WithRoster(config: ConfigData, roster: seq<OnCallPerson>): (c: ConfigData)
    ensures c.confluence == config.confluence && c.onCall == config.onCall
    ensures c.schedule.currentIndex == config.schedule.currentIndex && c.schedule.roster == roster
  {
    config.(schedule := config.schedule.(roster := roster))
  }

  /** An edit never adjusts the stored index, so a removal can leave it past
      the end; the next notification then starts again from the first person
      rather than failing. */
  lemma RemovalKeepsRotationWorking(config: ConfigData, index: int)
    requires 0 <= config.schedule.currentIndex && 0 <= index < |config.schedule.roster|
    requires |config.schedule.roster| > 1
    ensures var s := WithRoster(config, Removed(config.schedule.roster, index)).schedule;
      Rotation(s).Ok?
      && (config.schedule.currentIndex >= |s.roster| ==> Rotation(s).value.0 == s.roster[0])
  {
  }

  /** The editor component: the roster it shows, the two input fields, and
      the configurations it has passed to `onSave`. */
  class Editor {
    const config: ConfigData
    var roster: seq<OnCallPerson>
    var newPersonName: string
    var newPersonSlackId: string
    var saved: seq<ConfigData>

    constructor (config0: ConfigData)
      ensures config == config0 && roster == config0.schedule.roster
      ensures newPersonName == "" && newPersonSlackId == "" && saved == []
    {
      config := config0;
      roster := config0.schedule.roster;
      newPersonName, newPersonSlackId := "", "";
      saved := [];
    }

    /** `handleAddPerson`: with both fields filled, appends the person,
        clears the fields and saves; otherwise does nothing at all. */
    method AddPerson()
      modifies this
      ensures old(newPersonName) != "" && old(newPersonSlackId) != "" ==>
                roster == old(roster) + [OnCallPerson(old(newPersonName), old(newPersonSlackId))]
                && newPersonName == "" && newPersonSlackId == ""
                && saved == old(saved) + [WithRoster(config, roster)]
      ensures old(newPersonName) == "" || old(newPersonSlackId) == "" ==>
                roster == old(roster) && newPersonName == old(newPersonName)
                && newPersonSlackId == old(newPersonSlackId) && saved == old(saved)
    {
      if newPersonName != "" && newPersonSlackId != "" {
        var updatedRoster := roster + [OnCallPerson(newPersonName, newPersonSlackId)];
        roster := updatedRoster;
        newPersonName := "";
        newPersonSlackId := "";
        saved := saved + [WithRoster(config, updatedRoster)];
      }
    }

    /** `handleRemovePerson`: drops the entry at `index` and saves. */
    method RemovePerson(index: int)
      modifies this
      ensures roster == Removed(old(roster), index)
      ensures saved == old(saved) + [WithRoster(config, roster)]
      ensures newPersonName == old(newPersonName) && newPersonSlackId == old(newPersonSlackId)
    {
      var updatedRoster := Removed(roster, index);
      roster := updatedRoster;
      saved := saved + [WithRoster(config, updatedRoster)];
    }

    /** `handleMovePerson`: copies the roster, swaps the entry with its
        neighbour in place when there is one in that direction, and saves
        even when nothing moved. */
    method MovePerson(index: int, direction: Direction)
      requires 0 <= index < |roster|
      modifies this
      ensures roster == Moved(old(roster), index, direction)
      ensures saved == old(saved) + [WithRoster(config, roster)]
      ensures newPersonName == old(newPersonName) && newPersonSlackId == old(newPersonSlackId)
    {
      var current := roster;
      var updatedRoster := new OnCallPerson[|current|](k requires 0 <= k < |current| => current[k]);
      if direction == Up && index > 0 {
        updatedRoster[index - 1], updatedRoster[index] := updatedRoster[index], updatedRoster[index - 1];
      } else if direction == Down && index < updatedRoster.Length - 1 {
        updatedRoster[index + 1], updatedRoster[index] := updatedRoster[index], updatedRoster[index + 1];
      }
      roster := updatedRoster[..];
      saved := saved + [WithRoster(config, roster)];
    }
  }
}
