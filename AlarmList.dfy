/**
 * The ordered alarm list and the ways the controller searches and edits it:
 * locating an alarm by identifier, removing the first match, and writing an
 * edited alarm back in its place.
 */
module AlarmList {
  import opened Wrappers
  import opened AlarmEntity

  /** The identifiers present in the list. */
  function Ids(s: seq<Alarm>): set<string>
  {
    set i | 0 <= i < |s| :: s[i].uuid
  }

  /** No identifier occurs twice (what identifier generation guarantees). */
  ghost predicate UniqueIds(s: seq<Alarm>)
  {
    forall i, j :: 0 <= i < j < |s| ==> s[i].uuid != s[j].uuid
  }

  /** The position of the first alarm with the identifier, if there is one. */
  function FirstIndex(s: seq<Alarm>, uuid: string): (r: Option<nat>)
    ensures r.Some? ==> r.value < |s| && s[r.value].uuid == uuid
    ensures r.Some? ==> forall j :: 0 <= j < r.value ==> s[j].uuid != uuid
    ensures r.None? <==> uuid !in Ids(s)
  {
    if s == [] then None
    else if s[0].uuid == uuid then Some(0)
    else
      match FirstIndex(s[1..], uuid)
      case None =>
        assert Ids(s) == {s[0].uuid} + Ids(s[1..]) by {
          forall u | u in Ids(s) ensures u in {s[0].uuid} + Ids(s[1..]) {
            var i :| 0 <= i < |s| && s[i].uuid == u;
            if i > 0 { assert s[1..][i - 1].uuid == u; }
          }
        }
        None
      case Some(i) => Some(i + 1)
  }

  /** The search behind `alarms.index(of:)`: a left-to-right scan comparing identifiers. */
  method IndexOf(s: seq<Alarm>, uuid: string) returns (r: Option<nat>)
    ensures r == FirstIndex(s, uuid)
  {
    var i := 0;
    while i < |s|
      invariant 0 <= i <= |s|
      invariant forall j :: 0 <= j < i ==> s[j].uuid != uuid
    {
      if s[i].uuid == uuid {
        return Some(i);
      }
      i := i + 1;
    }
    return None;
  }

  /**
   * The list without its first alarm carrying the identifier; the list itself
   * when none does. The rest keep their relative order.
   */
  function RemoveFirst(s: seq<Alarm>, uuid: string): (r: seq<Alarm>)
    ensures match FirstIndex(s, uuid)
            case None => r == s
            case Some(i) => r == s[..i] + s[i + 1..]
  {
    if s == [] then []
    else if s[0].uuid == uuid then s[1..]
    else
      match FirstIndex(s[1..], uuid)
      case None => [s[0]] + RemoveFirst(s[1..], uuid)
      case Some(k) =>
        ConsSplice(s, k);
        [s[0]] + RemoveFirst(s[1..], uuid)
  }

  /** Helper: cutting position k out of the tail is cutting k + 1 out of the whole. */
  lemma ConsSplice(s: seq<Alarm>, k: nat)
    requires k + 1 < |s|
    ensures [s[0]] + (s[1..][..k] + s[1..][k + 1..]) == s[..k + 1] + s[k + 2..]
  {
    assert [s[0]] + s[1..][..k] == s[..k + 1];
    assert s[1..][k + 1..] == s[k + 2..];
  }

  /**
   * The list with its first alarm carrying the identifier replaced by `b`;
   * the list itself when none does.
   */
  function ReplaceFirst(s: seq<Alarm>, uuid: string, b: Alarm): (r: seq<Alarm>)
    ensures |r| == |s|
    ensures match FirstIndex(s, uuid)
            case None => r == s
            case Some(i) => r == s[i := b]
  {
    if s == [] then []
    else if s[0].uuid == uuid then [b] + s[1..]
    else [s[0]] + ReplaceFirst(s[1..], uuid, b)
  }

  /**
   * The current state of the alarm a caller holds: the list element with its
   * identifier when the alarm is in the list, otherwise the caller's own copy.
   */
  function Live(s: seq<Alarm>, alarm: Alarm): Alarm
  {
    match FirstIndex(s, alarm.uuid)
    case None => alarm
    case Some(i) => s[i]
  }

  /** Removing an alarm shortens the list by one exactly when the identifier was present. */
  lemma RemoveFirstLength(s: seq<Alarm>, uuid: string)
    ensures |RemoveFirst(s, uuid)| == if uuid in Ids(s) then |s| - 1 else |s|
  {
  }

  /** The elements left after removal, by position. */
  lemma RemoveFirstAt(s: seq<Alarm>, uuid: string, i: nat, j: nat)
    requires FirstIndex(s, uuid) == Some(i)
    requires j < |s| - 1
    ensures |RemoveFirst(s, uuid)| == |s| - 1
    ensures RemoveFirst(s, uuid)[j] == if j < i then s[j] else s[j + 1]
  {
    var r := RemoveFirst(s, uuid);
    assert r == s[..i] + s[i + 1..];
    if j < i { assert r[j] == s[..i][j]; } else { assert r[j] == s[i + 1..][j - i]; }
  }

  /** Replacing an element by one with the same identifier keeps the set of identifiers. */
  lemma IdsUpdate(s: seq<Alarm>, i: nat, b: Alarm)
    requires i < |s| && s[i].uuid == b.uuid
    ensures Ids(s[i := b]) == Ids(s)
  {
    var r := s[i := b];
    forall u | u in Ids(s) ensures u in Ids(r) {
      var k :| 0 <= k < |s| && s[k].uuid == u;
      assert r[k].uuid == u;
    }
    forall u | u in Ids(r) ensures u in Ids(s) {
      var k :| 0 <= k < |r| && r[k].uuid == u;
      assert s[k].uuid == u;
    }
  }

  /** Writing back an alarm with the same identifier keeps its position findable. */
  lemma ReplaceFirstKeepsIndex(s: seq<Alarm>, uuid: string, b: Alarm)
    requires b.uuid == uuid
    ensures FirstIndex(ReplaceFirst(s, uuid, b), uuid) == FirstIndex(s, uuid)
    ensures Ids(ReplaceFirst(s, uuid, b)) == Ids(s)
  {
    match FirstIndex(s, uuid)
    case None =>
    case Some(i) =>
      var r := s[i := b];
      assert ReplaceFirst(s, uuid, b) == r;
      IdsUpdate(s, i, b);
      assert uuid in Ids(r) by { assert uuid in Ids(s); }
      assert forall j :: 0 <= j < i ==> r[j] == s[j];
      assert r[i].uuid == uuid;
  }
}
