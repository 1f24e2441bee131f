/**
 * The live-mode response parser of the poller: the upstream body is a
 * `;`-separated list of bus segments, each a `,`-separated
 * `vehicle,type,route,eta` tuple (backend/server.js, lines 27-30).
 */
module EtaParser {
  import opened Wrappers
  import opened Strings

  /**
   * One bus record. Each field is `None` where JavaScript's array
   * destructuring yields `undefined`, that is, when the segment has
   * fewer fields than the field's position.
   */
  datatype Bus = Bus(vehicle: Option<string>, busType: Option<string>, route: Option<string>, eta: Option<string>)

  /** The `i`-th element of `fields`, or `None` past its end. */
  function Field(fields: seq<string>, i: nat): Option<string>
  {
    if i < |fields| then Some(fields[i]) else None
  }

  /** Number of occurrences of `c` in `s`. */
  function Occurrences(s: string, c: char): nat
  {
    multiset(s)[c]
  }

  /**
   * `const [vehicle, type, route, eta] = segment.split(',')`: a field is
   * present exactly when the segment has enough commas before it, and
   * everything after the fourth field is dropped.
   */
  function Record(segment: string): (b: Bus)
    ensures b.vehicle.Some?
    ensures b.busType.Some? <==> Occurrences(segment, ',') >= 1
    ensures b.route.Some? <==> Occurrences(segment, ',') >= 2
    ensures b.eta.Some? <==> Occurrences(segment, ',') >= 3
  {
    SplitCount(segment, ',');
    var fields := Split(segment, ',');
    Bus(Field(fields, 0), Field(fields, 1), Field(fields, 2), Field(fields, 3))
  }

  /** `filter(Boolean)` on strings: the non-empty ones, in order. */
  function NonEmpty(parts: seq<string>): (kept: seq<string>)
    ensures |kept| <= |parts|
    ensures forall i :: 0 <= i < |kept| ==> kept[i] != []
    ensures forall x :: x in kept <==> x in parts && x != []
  {
    if parts == [] then []
    else if parts[0] == [] then NonEmpty(parts[1..])
    else [parts[0]] + NonEmpty(parts[1..])
  }

  /** `map(Record)`: one record per segment, at the same position. */
  function Records(segments: seq<string>): (buses: seq<Bus>)
    ensures |buses| == |segments|
    ensures forall i :: 0 <= i < |segments| ==> buses[i] == Record(segments[i])
  {
    if segments == [] then [] else [Record(segments[0])] + Records(segments[1..])
  }

  /**
   * The body of the live-mode branch: an empty body gives no buses,
   * otherwise one record per non-empty `;`-segment, in input order.
   */
  function Parse(text: string): (buses: seq<Bus>)
    ensures |buses| <= Occurrences(text, ';') + 1
    ensures forall i :: 0 <= i < |buses| ==> buses[i].vehicle.Some?
  {
    SplitCount(text, ';');
    if text == [] then [] else Records(NonEmpty(Split(text, ';')))
  }

  /** Filtering distributes over concatenation, so it keeps the order. */
  lemma {:induction false} NonEmptyAppend(a: seq<string>, b: seq<string>)
    ensures NonEmpty(a + b) == NonEmpty(a) + NonEmpty(b)
  {
    if a == [] {
      assert a + b == b;
    } else {
      assert (a + b)[0] == a[0] && (a + b)[1..] == a[1..] + b;
      NonEmptyAppend(a[1..], b);
    }
  }

  /** Filtering a list of non-empty strings keeps all of them. */
  lemma {:induction false} NonEmptyKeepsAll(parts: seq<string>)
    requires forall i :: 0 <= i < |parts| ==> parts[i] != []
    ensures NonEmpty(parts) == parts
  {
    if parts != [] {
      NonEmptyKeepsAll(parts[1..]);
    }
  }

  /** Filtering a list of empty strings keeps none of them. */
  lemma {:induction false} NonEmptyDropsAll(parts: seq<string>)
    requires forall i :: 0 <= i < |parts| ==> parts[i] == []
    ensures NonEmpty(parts) == []
  {
    if parts != [] {
      NonEmptyDropsAll(parts[1..]);
    }
  }

  /** The `text ? … : []` guard does not change the result. */
  lemma ParseUnguarded(text: string)
    ensures Parse(text) == Records(NonEmpty(Split(text, ';')))
  {
  }

  /** An empty response body is no buses. */
  lemma ParseEmpty()
    ensures Parse([]) == []
  {
  }

  /** A body made only of `;` separators is no buses. */
  lemma ParseOnlySeparators(text: string)
    requires forall i :: 0 <= i < |text| ==> text[i] == ';'
    ensures Parse(text) == []
  {
    SplitOnlySeparators(text, ';');
    NonEmptyDropsAll(Split(text, ';'));
  }

  /** Mapping distributes over concatenation. */
  lemma {:induction false} RecordsAppend(a: seq<string>, b: seq<string>)
    ensures Records(a + b) == Records(a) + Records(b)
  {
    if a == [] {
      assert a + b == b;
    } else {
      assert (a + b)[0] == a[0] && (a + b)[1..] == a[1..] + b;
      RecordsAppend(a[1..], b);
    }
  }

  /** Records of two halves around a `;` are the records of each half, in order. */
  lemma ParseAppend(a: string, b: string)
    ensures Parse(a + [';'] + b) == Parse(a) + Parse(b)
  {
    ParseUnguarded(a);
    ParseUnguarded(b);
    ParseUnguarded(a + [';'] + b);
    SplitAppend(a, b, ';');
    NonEmptyAppend(Split(a, ';'), Split(b, ';'));
    RecordsAppend(NonEmpty(Split(a, ';')), NonEmpty(Split(b, ';')));
  }

  /** A single non-empty segment is exactly one record. */
  lemma ParseSegment(segment: string)
    requires segment != [] && ';' !in segment
    ensures Parse(segment) == [Record(segment)]
  {
    SplitWithoutSeparator(segment, ';');
  }

  /** Non-empty segments joined with `;` give one record per segment, in order. */
  lemma ParseJoin(segments: seq<string>)
    requires |segments| >= 1
    requires forall i :: 0 <= i < |segments| ==> segments[i] != [] && ';' !in segments[i]
    ensures Parse(Join(segments, ';')) == Records(segments)
  {
    SplitJoin(segments, ';');
    NonEmptyKeepsAll(segments);
    ParseUnguarded(Join(segments, ';'));
  }

  /** A segment of exactly four fields puts them in order, and they join back to it. */
  lemma RecordFourFields(segment: string)
    requires Occurrences(segment, ',') == 3
    ensures var b := Record(segment);
      && b.vehicle.Some? && b.busType.Some? && b.route.Some? && b.eta.Some?
      && Join([b.vehicle.value, b.busType.value, b.route.value, b.eta.value], ',') == segment
  {
    SplitCount(segment, ',');
    JoinSplit(segment, ',');
    var f := Split(segment, ',');
    assert f == [f[0], f[1], f[2], f[3]];
  }

  /** Fields after the fourth are dropped. */
  lemma RecordDropsExtraFields(segment: string, extra: string)
    requires Occurrences(segment, ',') >= 3
    ensures Record(segment + [','] + extra) == Record(segment)
  {
    SplitCount(segment, ',');
    SplitAppend(segment, extra, ',');
  }

  /** A bus all of whose fields are present and free of both separators. */
  predicate Printable(b: Bus)
  {
    && b.vehicle.Some? && b.busType.Some? && b.route.Some? && b.eta.Some?
    && ',' !in b.vehicle.value && ';' !in b.vehicle.value
    && ',' !in b.busType.value && ';' !in b.busType.value
    && ',' !in b.route.value && ';' !in b.route.value
    && ',' !in b.eta.value && ';' !in b.eta.value
  }

  /** The segment the upstream provider sends for one bus. */
  function Segment(b: Bus): string
    requires Printable(b)
  {
    Join([b.vehicle.value, b.busType.value, b.route.value, b.eta.value], ',')
  }

  /** The body the upstream provider sends for a list of buses. */
  function Body(buses: seq<Bus>): string
    requires forall i :: 0 <= i < |buses| ==> Printable(buses[i])
  {
    if buses == [] then [] else Join(seq(|buses|, i requires 0 <= i < |buses| => Segment(buses[i])), ';')
  }

  /** Parsing a bus's segment gives the bus back. */
  lemma {:induction false} RecordSegment(b: Bus)
    requires Printable(b)
    ensures ';' !in Segment(b) && Segment(b) != []
    ensures Record(Segment(b)) == b
  {
    var fields := [b.vehicle.value, b.busType.value, b.route.value, b.eta.value];
    SplitJoin(fields, ',');
    JoinAvoids(fields, ',', ';');
    assert Segment(b) == b.vehicle.value + [','] + Join(fields[1..], ',');
  }

  /** Round trip: parsing the body for a list of buses gives the list back. */
  lemma ParseBody(buses: seq<Bus>)
    requires forall i :: 0 <= i < |buses| ==> Printable(buses[i])
    ensures Parse(Body(buses)) == buses
  {
    if buses != [] {
      var segments := seq(|buses|, i requires 0 <= i < |buses| => Segment(buses[i]));
      forall i | 0 <= i < |buses|
        ensures segments[i] != [] && ';' !in segments[i] && Record(segments[i]) == buses[i]
      {
        RecordSegment(buses[i]);
      }
      ParseJoin(segments);
    }
  }

  /** Four comma-free fields joined by commas parse into those fields, in order. */
  lemma RecordOfFields(vehicle: string, busType: string, route: string, eta: string)
    requires ',' !in vehicle && ',' !in busType && ',' !in route && ',' !in eta
    ensures Record(vehicle + [','] + busType + [','] + route + [','] + eta)
      == Bus(Some(vehicle), Some(busType), Some(route), Some(eta))
  {
    JoinFour(vehicle, busType, route, eta, ',');
    SplitJoin([vehicle, busType, route, eta], ',');
  }

  /**
   * Any number of comma-free fields joined by commas: the first four land
   * in vehicle, type, route and eta, in that order, missing ones are
   * `None`, and the rest are dropped.
   */
  lemma RecordOfParts(fields: seq<string>)
    requires |fields| >= 1
    requires forall i :: 0 <= i < |fields| ==> ',' !in fields[i]
    ensures Record(Join(fields, ','))
      == Bus(Field(fields, 0), Field(fields, 1), Field(fields, 2), Field(fields, 3))
  {
    SplitJoin(fields, ',');
  }

  /** A segment without commas is a vehicle id alone. */
  lemma RecordOneField(vehicle: string)
    requires ',' !in vehicle
    ensures Record(vehicle) == Bus(Some(vehicle), None, None, None)
  {
    SplitWithoutSeparator(vehicle, ',');
  }

  /** `vehicle,type`: route and eta are `None`, and the first field stays the vehicle. */
  lemma RecordTwoFields(vehicle: string, busType: string)
    requires ',' !in vehicle && ',' !in busType
    ensures Record(vehicle + [','] + busType) == Bus(Some(vehicle), Some(busType), None, None)
  {
    SplitAppend(vehicle, busType, ',');
    SplitWithoutSeparator(vehicle, ',');
    SplitWithoutSeparator(busType, ',');
  }

  /** `vehicle,type,route`: only the eta is `None`. */
  lemma RecordThreeFields(vehicle: string, busType: string, route: string)
    requires ',' !in vehicle && ',' !in busType && ',' !in route
    ensures Record(vehicle + [','] + busType + [','] + route)
      == Bus(Some(vehicle), Some(busType), Some(route), None)
  {
    SplitAppend(vehicle + [','] + busType, route, ',');
    SplitAppend(vehicle, busType, ',');
    SplitWithoutSeparator(vehicle, ',');
    SplitWithoutSeparator(busType, ',');
    SplitWithoutSeparator(route, ',');
  }

  /** Two buses' segments joined by `;` give the two buses, in order. */
  lemma ParseTwoSegments(b1: Bus, b2: Bus)
    requires Printable(b1) && Printable(b2)
    ensures Parse(Segment(b1) + [';'] + Segment(b2)) == [b1, b2]
  {
    ParseAppend(Segment(b1), Segment(b2));
    RecordSegment(b1);
    RecordSegment(b2);
    ParseSegment(Segment(b1));
    ParseSegment(Segment(b2));
  }

  /** The buses V1 and V2 have the upstream segments `V1,T,42,08:00` and `V2,T,43,08:05`. */
  lemma TwoBusBody(b1: Bus, b2: Bus)
    requires b1 == Bus(Some("V1"), Some("T"), Some("42"), Some("08:00"))
    requires b2 == Bus(Some("V2"), Some("T"), Some("43"), Some("08:05"))
    ensures Printable(b1) && Printable(b2)
    ensures Segment(b1) == "V1,T,42,08:00" && Segment(b2) == "V2,T,43,08:05"
  {
    JoinFour("V1", "T", "42", "08:00", ',');
    JoinFour("V2", "T", "43", "08:05", ',');
    assert "V1" + [','] + "T" + [','] + "42" + [','] + "08:00" == "V1,T,42,08:00";
    assert "V2" + [','] + "T" + [','] + "43" + [','] + "08:05" == "V2,T,43,08:05";
  }

  /**
   * Parsing `V1,T,42,08:00;V2,T,43,08:05` (the segments of TwoBusBody) gives
   * two records, V1 then V2, with no field transposed.
   */
  lemma ParseTwoBuses(b1: Bus, b2: Bus)
    requires b1 == Bus(Some("V1"), Some("T"), Some("42"), Some("08:00"))
    requires b2 == Bus(Some("V2"), Some("T"), Some("43"), Some("08:05"))
    ensures Printable(b1) && Printable(b2)
    ensures Parse(Segment(b1) + [';'] + Segment(b2)) == [b1, b2]
  {
    assert Printable(b1) && Printable(b2);
    ParseTwoSegments(b1, b2);
  }
}
