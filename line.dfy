/** The line topology manager: a `Line` keeps its sections in path order and
    only ever extends or shortens that path at its tail. */
module Subway {
  import opened Stations

  /** The failure kinds a line operation can report. */
  datatype Error =
    | UpStationMismatch    // addSection: the up station is not the current tail
    | DownStationPresent   // addSection: the down station is already on the line
    | NoLastStation        // getLastDownStation on a line without sections
    | TooFewSections       // deleteSection: one section or fewer remain
    | NotLastStation       // deleteSection: the id is not the tail station's
    | NoMatchingSection    // deleteSection: no section ends at the tail (defensive)

  datatype Option<T> = None | Some(value: T)

  datatype Result<T> = Ok(value: T) | Err(error: Error)

  /** What a mutating operation reports: it either went through or failed
      with an error and changed nothing. */
  datatype Outcome = Done | Failed(error: Error)

  /** A directed edge from `up` to `down`, with a back-reference to the line
      that owns it. Only the back-reference ever changes. */
  class Section {
    const up: Station
    const down: Station
    var line: Line?

    constructor (up: Station, down: Station, line: Line?)
      ensures this.up == up && this.down == down && this.line == line
    {
      this.up := up;
      this.down := down;
      this.line := line;
    }
  }

  /** Which end of a section a query reads: the `Section::getUpStation` and
      `Section::getDownStation` method references. */
  datatype Endpoint = Up | Down

  function EndOf(section: Section, endpoint: Endpoint): Station
  {
    match endpoint
    case Up => section.up
    case Down => section.down
  }

  // ---------------------------------------------------------------------
  // Queries over the section sequence (the stream pipelines of the line)
  // ---------------------------------------------------------------------

  /** `getSectionStations`: the chosen endpoint of every section, in order. */
  function SectionStations(s: seq<Section>, endpoint: Endpoint): (r: seq<Station>)
    ensures |r| == |s|
    ensures forall i :: 0 <= i < |s| ==> r[i] == EndOf(s[i], endpoint)
  {
    if s == [] then [] else [EndOf(s[0], endpoint)] + SectionStations(s[1..], endpoint)
  }

  /** `reduce((a, b) -> b)` continued from the accumulated value `acc`. */
  function KeepLatter(acc: Station, rest: seq<Station>): (r: Station)
    ensures r == if rest == [] then acc else rest[|rest| - 1]
    decreases |rest|
  {
    if rest == [] then acc else KeepLatter(rest[0], rest[1..])
  }

  /** `reduce((a, b) -> b)` on a stream: empty for an empty stream, otherwise
      its final element. */
  function ReduceToLast(xs: seq<Station>): (r: Option<Station>)
    ensures r.None? <==> xs == []
    ensures r.Some? ==> r.value == xs[|xs| - 1]
  {
    if xs == [] then None else Some(KeepLatter(xs[0], xs[1..]))
  }

  /** `getLastDownStation`: the down station of the last section, or the
      no-last-station error on a line without sections. */
  function LastDownStation(s: seq<Section>): (r: Result<Station>)
    ensures r.Err? <==> s == []
    ensures r.Err? ==> r.error == NoLastStation
    ensures r.Ok? ==> r.value == s[|s| - 1].down
  {
    match ReduceToLast(SectionStations(s, Down))
    case None => Err(NoLastStation)
    case Some(last) => Ok(last)
  }

  /** `validateUpStation`: an empty line accepts any up station; otherwise it
      must be the current tail station. */
  function ValidateUpStation(s: seq<Section>, up: Station): (ok: bool)
    ensures ok <==> s == [] || s[|s| - 1].down == up
  {
    if s == [] then true else LastDownStation(s) == Ok(up)
  }

  /** `validateDownStation`: the station is neither an up nor a down station
      of any section. */
  function ValidateDownStation(s: seq<Section>, down: Station): (ok: bool)
    ensures ok <==> forall i :: 0 <= i < |s| ==> s[i].up != down && s[i].down != down
  {
    if down in SectionStations(s, Up) then false
    else down !in SectionStations(s, Down)
  }

  /** `getAllStations`: the up station of every section in order, then the
      tail station; nothing at all for a line without sections. */
  function AllStations(s: seq<Section>): (r: seq<Station>)
    ensures s == [] ==> r == []
    ensures s != [] ==> |r| == |s| + 1 && r[|s|] == s[|s| - 1].down
    ensures forall i :: 0 <= i < |s| ==> r[i] == s[i].up
  {
    if s == [] then []
    else
      var last := LastDownStation(s);
      SectionStations(s, Up) + [last.value]
  }

  /** The `filter(down == station).findFirst()` search of `deleteSection`:
      the index of the first section ending at `station`. */
  function FindFirstEndingAt(s: seq<Section>, station: Station): (r: Option<nat>)
    ensures r.None? ==> forall j :: 0 <= j < |s| ==> s[j].down != station
    ensures r.Some? ==> r.value < |s| && s[r.value].down == station
    ensures r.Some? ==> forall j :: 0 <= j < r.value ==> s[j].down != station
  {
    if s == [] then None
    else if s[0].down == station then Some(0)
    else
      match FindFirstEndingAt(s[1..], station)
      case None => None
      case Some(k) => Some(k + 1)
  }

  /** `sections.remove(section)`: drops the section at index `k`, keeping the
      order of the others. Because `k` is the first index whose section ends
      at the tail, no earlier element is that same section, so this is the
      first occurrence that a by-identity `remove` finds. */
  function RemoveAt(s: seq<Section>, k: nat): (r: seq<Section>)
    requires k < |s|
    ensures |r| == |s| - 1
    ensures forall i :: 0 <= i < k ==> r[i] == s[i]
    ensures forall i :: k <= i < |r| ==> r[i] == s[i + 1]
  {
    if k == 0 then s[1..] else [s[0]] + RemoveAt(s[1..], k - 1)
  }

  // ---------------------------------------------------------------------
  // The decisions the two mutations take before they change anything
  // ---------------------------------------------------------------------

  /** `addSection` validation: the up-station check runs first, then the
      down-station check. */
  function AddOutcome(s: seq<Section>, section: Section): (r: Outcome)
    ensures r == Failed(UpStationMismatch) <==> s != [] && s[|s| - 1].down != section.up
    ensures r == Failed(DownStationPresent) <==>
              (s == [] || s[|s| - 1].down == section.up) &&
              exists i :: 0 <= i < |s| && (s[i].up == section.down || s[i].down == section.down)
    ensures r.Failed? ==> r == Failed(UpStationMismatch) || r == Failed(DownStationPresent)
  {
    if !ValidateUpStation(s, section.up) then Failed(UpStationMismatch)
    else if !ValidateDownStation(s, section.down) then Failed(DownStationPresent)
    else Done
  }

  /** `deleteSection` validation: the tail lookup runs first (failing on an
      empty line), then the size check, then the id check, then the search for
      the section to remove. On success, the index of the first section
      that ends at the tail. */
  function DeleteOutcome(s: seq<Section>, lastDownStationId: int): (r: Result<nat>)
    ensures r == Err(NoLastStation) <==> s == []
    ensures r == Err(TooFewSections) <==> |s| == 1
    ensures r == Err(NotLastStation) <==> |s| >= 2 && s[|s| - 1].down.id != lastDownStationId
    ensures r.Ok? <==> |s| >= 2 && s[|s| - 1].down.id == lastDownStationId
    ensures r.Ok? ==> r.value < |s| && s[r.value].down == s[|s| - 1].down
    ensures r.Ok? ==> forall j :: 0 <= j < r.value ==> s[j].down != s[|s| - 1].down
    ensures r != Err(NoMatchingSection)
  {
    match LastDownStation(s)
    case Err(e) => Err(e)
    case Ok(last) =>
      if |s| <= 1 then Err(TooFewSections)
      else if !IsSameStation(last, lastDownStationId) then Err(NotLastStation)
      else
        match FindFirstEndingAt(s, last)
        case None => Err(NoMatchingSection)
        case Some(k) => Ok(k)
  }

  // ---------------------------------------------------------------------
  // The path invariant
  // ---------------------------------------------------------------------

  /** Each section starts where the previous one ends. */
  ghost predicate Connected(s: seq<Section>)
  {
    forall i, j :: 0 <= i < j < |s| && j == i + 1 ==> s[j].up == s[i].down
  }

  /** Each section's down station is new with respect to every earlier
      section, as the down-station check enforces on every append. */
  ghost predicate FreshDowns(s: seq<Section>)
  {
    forall i, j :: 0 <= j < i < |s| ==> s[i].down != s[j].up && s[i].down != s[j].down
  }

  ghost predicate IsPath(s: seq<Section>)
  {
    Connected(s) && FreshDowns(s)
  }

  ghost predicate Distinct(xs: seq<Station>)
  {
    forall i, j :: 0 <= i < j < |xs| ==> xs[i] != xs[j]
  }

  // ---------------------------------------------------------------------
  // The line itself
  // ---------------------------------------------------------------------

  class Line {
    var name: string
    var color: string
    var sections: seq<Section>

    ghost predicate Valid()
      reads this
    {
      IsPath(sections)
    }

    /** A new line has its name and colour and no sections. */
    constructor (name: string, color: string)
      ensures this.name == name && this.color == color
      ensures sections == [] && Valid()
    {
      this.name := name;
      this.color := color;
      sections := [];
    }

    /** `update`: replaces the display metadata and nothing else. */
    method Update(name: string, color: string)
      modifies this`name, this`color
      ensures this.name == name && this.color == color
    {
      this.name := name;
      this.color := color;
    }

    /** `addSection`: validate, append at the tail, then point the section's
        back-reference at this line. A rejected section changes nothing. */
    method AddSection(section: Section) returns (r: Outcome)
      modifies this`sections, section`line
      ensures r == AddOutcome(old(sections), section)
      ensures r.Done? ==> sections == old(sections) + [section] && section.line == this
      ensures r.Failed? ==> sections == old(sections) && section.line == old(section.line)
      ensures old(Valid()) ==> Valid()
    {
      if !ValidateUpStation(sections, section.up) {
        return Failed(UpStationMismatch);
      }
      if !ValidateDownStation(sections, section.down) {
        return Failed(DownStationPresent);
      }
      if IsPath(sections) {
        AppendKeepsPath(sections, section);
      }
      sections := sections + [section];
      if section.line != this {
        section.line := this;
      }
      r := Done;
    }

    /** `deleteSection`: find the tail, refuse if one section or fewer remain
        or if the id is not the tail's, then remove the first section ending
        at the tail. A refused deletion changes nothing; on a valid line the
        removed section is exactly the last one. */
    method DeleteSection(lastDownStationId: int) returns (r: Outcome)
      modifies this`sections
      ensures match DeleteOutcome(old(sections), lastDownStationId)
              case Err(e) => r == Failed(e) && sections == old(sections)
              case Ok(k) => r == Done && sections == RemoveAt(old(sections), k)
      ensures old(Valid()) ==> Valid()
      ensures old(Valid()) && r.Done? ==> sections == old(sections)[..|old(sections)| - 1]
    {
      ghost var expected := DeleteOutcome(sections, lastDownStationId);
      var last := LastDownStation(sections);
      if last.Err? {
        return Failed(last.error);
      }
      if |sections| <= 1 {
        return Failed(TooFewSections);
      }
      if !IsSameStation(last.value, lastDownStationId) {
        return Failed(NotLastStation);
      }
      var found := FindFirstEndingAt(sections, last.value);
      if found.None? {
        return Failed(NoMatchingSection);
      }
      assert expected == Ok(found.value);
      if IsPath(sections) {
        DeleteRemovesTail(sections, lastDownStationId);
      }
      sections := RemoveAt(sections, found.value);
      r := Done;
    }
  }

  // ---------------------------------------------------------------------
  // Properties
  // ---------------------------------------------------------------------

  /** On an empty line any section is accepted, and the line then reads
      [up, down]. */
  lemma AddToEmpty(section: Section)
    ensures AddOutcome([], section) == Done
    ensures AllStations([section]) == [section.up, section.down]
  {
  }

  /** An accepted append keeps the path invariant. */
  lemma AppendKeepsPath(s: seq<Section>, section: Section)
    requires IsPath(s)
    requires AddOutcome(s, section) == Done
    ensures IsPath(s + [section])
  {
    var t := s + [section];
    assert t[|s|] == section;
    forall i, j | 0 <= i < j < |t| && j == i + 1
      ensures t[j].up == t[i].down
    {
      assert t[i] == s[i];
      if j < |s| {
        assert t[j] == s[j];
      }
    }
    forall i, j | 0 <= j < i < |t|
      ensures t[i].down != t[j].up && t[i].down != t[j].down
    {
      assert t[j] == s[j];
      if i < |s| {
        assert t[i] == s[i];
      }
    }
  }

  /** An accepted append adds exactly the new down station to the end of the
      station list. */
  lemma AppendExtendsStations(s: seq<Section>, section: Section)
    requires AddOutcome(s, section) == Done
    ensures AllStations(s + [section]) ==
            if s == [] then [section.up, section.down] else AllStations(s) + [section.down]
  {
    var t := s + [section];
    if s != [] {
      assert AllStations(t)[|s|] == section.up == s[|s| - 1].down;
      assert AllStations(t) == AllStations(s) + [section.down];
    }
  }

  /** On a connected section list, the station list walks the path:
      consecutive stations are the two ends of a real section. */
  lemma StationsFollowSections(s: seq<Section>)
    requires Connected(s)
    ensures forall i :: 0 <= i < |s| ==>
              AllStations(s)[i] == s[i].up && AllStations(s)[i + 1] == s[i].down
  {
    var r := AllStations(s);
    forall i | 0 <= i < |s|
      ensures r[i + 1] == s[i].down
    {
      if i + 1 < |s| {
        assert r[i + 1] == s[i + 1].up;
        assert s[i + 1].up == s[i].down;
      } else {
        assert r[|s|] == s[|s| - 1].down;
      }
    }
  }

  /** On a path, the down-station check fails exactly when the station is
      already in the line's station list. */
  lemma DownCheckMeansListed(s: seq<Section>, down: Station)
    requires IsPath(s)
    ensures ValidateDownStation(s, down) <==> down !in AllStations(s)
  {
    var r := AllStations(s);
    StationsFollowSections(s);
    if !ValidateDownStation(s, down) {
      var i :| 0 <= i < |s| && (s[i].up == down || s[i].down == down);
      if s[i].up == down {
        assert r[i] == down;
      } else {
        assert r[i + 1] == down;
      }
    }
    if down in r {
      var k :| 0 <= k < |r| && r[k] == down;
      if k < |s| {
        assert s[k].up == down;
      } else {
        assert s[|s| - 1].down == down;
      }
    }
  }

  /** On a path, the station list has no repeats exactly when the first
      section is not a self-loop; nothing in the line forbids one. */
  lemma StationsDistinct(s: seq<Section>)
    requires IsPath(s)
    ensures Distinct(AllStations(s)) <==> s == [] || s[0].up != s[0].down
  {
    var r := AllStations(s);
    StationsFollowSections(s);
    if s != [] && s[0].up == s[0].down {
      assert r[0] == r[1];
    }
    if s == [] || s[0].up != s[0].down {
      forall i, j | 0 <= i < j < |r|
        ensures r[i] != r[j]
      {
        // r[j] is the down station of section j - 1
        assert r[j] == s[j - 1].down;
        if i == 0 {
          if j - 1 > 0 {
            assert s[j - 1].down != s[0].up;
          }
        } else {
          assert r[i] == s[i - 1].down;
          assert s[j - 1].down != s[i - 1].down;
        }
      }
    }
  }

  /** On a path, a successful deletion removes exactly the last section: the
      first section ending at the tail is the last one. The shorter line is
      still a path and its station list has lost exactly its last station. */
  lemma DeleteRemovesTail(s: seq<Section>, lastDownStationId: int)
    requires IsPath(s)
    requires DeleteOutcome(s, lastDownStationId).Ok?
    ensures DeleteOutcome(s, lastDownStationId).value == |s| - 1
    ensures RemoveAt(s, |s| - 1) == s[..|s| - 1]
    ensures IsPath(s[..|s| - 1])
    ensures AllStations(s[..|s| - 1]) == AllStations(s)[..|s|]
  {
    var k := DeleteOutcome(s, lastDownStationId).value;
    OnlyLastEndsAtTail(s, k);
    assert RemoveAt(s, |s| - 1) == s[..|s| - 1];
    DropLastStation(s);
  }

  /** With fresh down stations, the only section ending at the tail is the
      last one. */
  lemma OnlyLastEndsAtTail(s: seq<Section>, k: nat)
    requires FreshDowns(s)
    requires k < |s| && s[k].down == s[|s| - 1].down
    ensures k == |s| - 1
  {
  }

  /** Dropping the last section of a path of two or more sections leaves a
      path whose station list is the old one without its last station. */
  lemma DropLastStation(s: seq<Section>)
    requires IsPath(s) && |s| >= 2
    ensures IsPath(s[..|s| - 1])
    ensures AllStations(s[..|s| - 1]) == AllStations(s)[..|s|]
  {
    var t := s[..|s| - 1];
    var r, q := AllStations(s), AllStations(t);
    assert |q| == |s| == |r[..|s|]|;
    forall i | 0 <= i < |s|
      ensures q[i] == r[i]
    {
      if i == |s| - 1 {
        assert q[i] == t[|t| - 1].down == s[|s| - 2].down;
        assert s[|s| - 1].up == s[|s| - 2].down;
      }
    }
  }

  /** Tail-only removal: a deletion succeeds exactly when at least two
      sections remain and the id is that of the last station in the list. */
  lemma DeleteOnlyAtTail(s: seq<Section>, lastDownStationId: int)
    ensures DeleteOutcome(s, lastDownStationId).Ok? <==>
            |s| >= 2 && AllStations(s)[|AllStations(s)| - 1].id == lastDownStationId
  {
  }

  /** Sections that `addSection` accepted one after another, starting from an
      empty line: each was accepted by the line its predecessors built. */
  ghost predicate AcceptedInOrder(secs: seq<Section>)
    decreases |secs|
  {
    secs == [] ||
    (AcceptedInOrder(secs[..|secs| - 1]) && AddOutcome(secs[..|secs| - 1], secs[|secs| - 1]) == Done)
  }

  /** Growth from empty: after n accepted additions the sections form a path
      and the station list has n + 1 stations (none for n = 0). */
  lemma {:induction false} GrowthFromEmpty(secs: seq<Section>)
    requires AcceptedInOrder(secs)
    ensures IsPath(secs)
    ensures |AllStations(secs)| == if secs == [] then 0 else |secs| + 1
  {
    if secs != [] {
      var prefix, last := secs[..|secs| - 1], secs[|secs| - 1];
      GrowthFromEmpty(prefix);
      AppendKeepsPath(prefix, last);
      assert prefix + [last] == secs;
    }
  }

  /** The walk-through of a short line: A-B, then B-C; A-D and C-A are
      refused; removing C succeeds; removing B is then refused because one
      section is left. */
  method ExampleJourney()
  {
    var a, b, c, d := Station(1, "A"), Station(2, "B"), Station(3, "C"), Station(4, "D");
    var line := new Line("green", "bg-green-600");
    var ab := new Section(a, b, null);
    var r := line.AddSection(ab);
    assert r == Done && AllStations(line.sections) == [a, b];
    var bc := new Section(b, c, null);
    r := line.AddSection(bc);
    assert r == Done && line.sections == [ab, bc];
    assert AllStations(line.sections) == [a, b, c];
    var ad := new Section(a, d, null);
    r := line.AddSection(ad);
    assert r == Failed(UpStationMismatch);
    var ca := new Section(c, a, null);
    r := line.AddSection(ca);
    assert r == Failed(DownStationPresent);
    r := line.DeleteSection(3);
    assert r == Done && AllStations(line.sections) == [a, b];
    r := line.DeleteSection(2);
    assert r == Failed(TooFewSections);
  }
}
