# Subway line topology, modelled in Dafny

This project models the line topology of a subway map service: a `Line`
keeps an ordered list of `Section`s, each a directed edge from an up
station to a down station, and the list always describes one path that is
extended or shortened only at its tail station.

- `stations.dfy`, module `Stations`: a station is a value with an identity
  (`id`) and a display name; `IsSameStation` compares the identity with a
  raw id.
- `line.dfy`, module `Subway`:
  - the six failure kinds (`Error`) and the `Outcome`/`Result` types that
    replace the exceptions;
  - `Section`, a class whose up and down stations are fixed and whose
    owning-line back-reference (`line`) is the one field that changes;
  - the stream pipelines of `Line` as functions over the section sequence:
    `SectionStations` (one endpoint of every section, the endpoint chosen
    by `Endpoint` in place of the method reference), `ReduceToLast`
    (`reduce((a, b) -> b)`), `LastDownStation`, `ValidateUpStation`,
    `ValidateDownStation`, `AllStations`, `FindFirstEndingAt` and
    `RemoveAt`;
  - the decisions the two mutations take, `AddOutcome` and
    `DeleteOutcome`, with the checks in the order the code runs them;
  - the class `Line` with `name`, `color` and `sections`, whose methods
    `AddSection`, `DeleteSection` and `Update` change those fields in place;
    `Valid()` is the path invariant `IsPath` (each section starts where the
    previous one ends, and each down station is new with respect to all
    earlier sections);
  - lemmas for the properties of the topology, and `ExampleJourney`, a
    client that builds the line A-B-C and whose assertions about the
    rejected additions and the deletions follow from the contracts alone.

The mutating methods demand nothing of their callers, as in the code: they
work on any list of sections, report each failure as an `Outcome`, leave
everything unchanged when they fail, and keep `Valid()` when it held
before.

`addSection` checks only the new down station against the stations
already on the line (Line.java:60-62, 79-88), so an empty line accepts a
section A→A and `getAllStations` then reads [A, A].
`StationsDistinct` states the consequence exactly: the station list has no
repeats if and only if the first section is not such a self-loop.

## Model

| member | source | states |
|---|---|---|
| `Subway.SectionStations` | src/main/java/nextstep/subway/domain/Line.java:90-95 | the list has one entry per section, and entry i is the chosen endpoint of section i |
| `Subway.KeepLatter` | src/main/java/nextstep/subway/domain/Line.java:101 | folding `(a, b) -> b` over a stream from an accumulator yields the stream's last element, or the accumulator when the stream is empty |
| `Subway.ReduceToLast` | src/main/java/nextstep/subway/domain/Line.java:98-101 | the reduction is empty exactly for an empty stream and otherwise is its final element |
| `Subway.LastDownStation` | src/main/java/nextstep/subway/domain/Line.java:97-103 | fails with the no-last-station error exactly when there are no sections; otherwise it is the down station of the last section |
| `Subway.ValidateUpStation` | src/main/java/nextstep/subway/domain/Line.java:71-77 | accepts exactly when the line is empty or the station is the last section's down station |
| `Subway.ValidateDownStation` | src/main/java/nextstep/subway/domain/Line.java:79-88 | accepts exactly when the station is neither the up nor the down station of any section |
| `Subway.AllStations` | src/main/java/nextstep/subway/domain/Line.java:124-134 | empty for an empty line; otherwise one more station than sections, the up station of every section in order, then the last section's down station |
| `Subway.FindFirstEndingAt` | src/main/java/nextstep/subway/domain/Line.java:116-119 | finds the first index whose section ends at the station, or reports that no section does |
| `Subway.RemoveAt` | src/main/java/nextstep/subway/domain/Line.java:121 | the list loses exactly the element at the index; the elements before it stay in place and the ones after it move up by one |
| `Subway.AddOutcome` | src/main/java/nextstep/subway/domain/Line.java:55-62 | fails with the up-station mismatch exactly when the line is non-empty and the up station is not the tail; fails with the down-station-present error exactly when the up check passes and the down station is an endpoint of some section; no other error |
| `Subway.DeleteOutcome` | src/main/java/nextstep/subway/domain/Line.java:105-119 | no-last-station error exactly on an empty line, too-few-sections exactly with one section, not-last-station exactly when two or more remain and the id is not the tail's; succeeds exactly when two or more remain and the id is the tail's, naming the first section that ends at the tail; the defensive no-matching-section error never occurs |
| `Subway.Line.constructor` | src/main/java/nextstep/subway/domain/Line.java:29-32 | a new line has the given name and colour, no sections, and satisfies the path invariant |
| `Subway.Line.Update` | src/main/java/nextstep/subway/domain/Line.java:50-53 | name and colour take the new values; sections are not touched |
| `Subway.Line.AddSection` | src/main/java/nextstep/subway/domain/Line.java:55-69 | reports the outcome of the checks in order; on success the sections are the old ones with the new section appended and its back-reference is this line; on failure sections and back-reference are unchanged; the path invariant is kept |
| `Subway.Line.DeleteSection` | src/main/java/nextstep/subway/domain/Line.java:105-122 | each refusal reports its error and changes nothing; a success removes the first section ending at the tail; on a valid line that is exactly the last section and the invariant is kept |
| `Subway.AddToEmpty` | src/main/java/nextstep/subway/domain/Line.java:55-74 | an empty line accepts any section and then lists exactly its up and down stations |
| `Subway.AppendKeepsPath` | src/main/java/nextstep/subway/domain/Line.java:55-88 | appending a section that passes both checks to a path gives a path |
| `Subway.AppendExtendsStations` | src/main/java/nextstep/subway/domain/Line.java:124-134 | after an accepted append the station list is the old one plus the new down station (or up and down for an empty line) |
| `Subway.StationsFollowSections` | src/main/java/nextstep/subway/domain/Line.java:124-134 | on a path, stations i and i+1 of the list are the up and down stations of section i |
| `Subway.DownCheckMeansListed` | src/main/java/nextstep/subway/domain/Line.java:79-88 | on a path, the down-station check fails exactly when the station is already in the station list |
| `Subway.StationsDistinct` | src/main/java/nextstep/subway/domain/Line.java:124-134 | on a path, the station list has no repeats exactly when the first section is not a self-loop |
| `Subway.DeleteRemovesTail` | src/main/java/nextstep/subway/domain/Line.java:116-121 | on a path, a successful deletion picks the last section, so the result is the prefix without it, still a path, and its station list is the old one without the last station |
| `Subway.OnlyLastEndsAtTail` | src/main/java/nextstep/subway/domain/Line.java:116-118 | when every down station is new with respect to the earlier sections, the only section ending at the tail station is the last one |
| `Subway.DropLastStation` | src/main/java/nextstep/subway/domain/Line.java:116-121 | dropping the last of two or more sections of a path leaves a path whose station list is the old one without its last station |
| `Subway.DeleteOnlyAtTail` | src/main/java/nextstep/subway/domain/Line.java:105-114 | a deletion succeeds exactly when at least two sections remain and the id is that of the last station of the list |
| `Subway.GrowthFromEmpty` | src/main/java/nextstep/subway/domain/Line.java:55-69 | sections accepted one after another from an empty line form a path, and n of them give n + 1 stations |

## Left out

- Persistence: the JPA annotations, the generated line id, the cascade and
  orphan-removal rules and the no-argument `Line()` constructor
  (Line.java:15-27) are storage concerns; the plain getters (Line.java:34-48)
  are direct reads of the fields.
- `StationResponse.ofStation` (Line.java:136-139): `AllStations` returns
  the stations themselves rather than response objects.
- The exception message strings: only the error kind is modelled.
- The `Station` and `Section` classes lie outside the modelled file. A
  station is modelled as a value, and the model treats both the code's
  reference comparisons (`==`, Line.java:76 and 117) and the `equals` that
  `List.contains` uses (Line.java:83 and 87) as the same value equality;
  `isSameStation(id)` is taken to compare the station's id.
  `Section.equals` is taken to be identity, so `sections.remove` removes the
  first occurrence of the found section, which is the section at the found
  index.
- `changeLine` (Line.java:66-68) is taken to be a plain write of the
  section's back-reference, with no effect on any line's section list.
- Ownership is only stated for the section an `AddSection` call appends:
  `Valid()` does not say that every section of a line points back at it,
  because another line may later take the same section object over.
- The station service (`StationService.java`, thin calls to a station
  repository) and the HTTP acceptance tests are not part of this model:
  they hold no topology logic.
- Concurrency: a line is assumed to be mutated by one caller at a time.
