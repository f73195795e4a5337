/**
 * The sample data loaded at start-up: two events, and for the open one a
 * grid of seats in three sections, each seat named `section-row-seatNum`.
 */
module DataInitializer {

  import opened Wrappers
  import opened Domain
  import JavaText
  import EventRepository
  import SeatRepository

  /** `section + "-" + row + "-" + seatNum`. */
  function SeatId(section: string, row: nat, seatNum: nat): string
  {
    section + "-" + JavaText.NatToString(row) + "-" + JavaText.NatToString(seatNum)
  }

  /** The composite key the seat repository files the seat under. */
  function GridKey(eventId: string, section: string, row: nat, seatNum: nat): string
  {
    CompositeKey(eventId, SeatId(section, row, seatNum))
  }

  /** The first '-' of `a + "-" + b` is the one after `a` when `a` has none. */
  lemma DashAt(a: string, b: string)
    requires '-' !in a
    ensures JavaText.IndexOfChar(a + "-" + b, '-') == |a|
  {
    var s := a + "-" + b;
    assert s[..|a|] == a && s[|a|] == '-';
  }

  /** Splitting at the first '-' is unambiguous when the left part has none. */
  lemma DashJoinInjective(a1: string, b1: string, a2: string, b2: string)
    requires '-' !in a1 && '-' !in a2
    requires a1 + "-" + b1 == a2 + "-" + b2
    ensures a1 == a2 && b1 == b2
  {
    var s := a1 + "-" + b1;
    DashAt(a1, b1);
    DashAt(a2, b2);
    assert a1 == s[..|a1|] == a2;
    assert b1 == s[|a1| + 1..] == b2;
  }

  lemma NoDashInDigits(n: nat)
    ensures '-' !in JavaText.NatToString(n)
  {
    var d := JavaText.NatToString(n);
    forall i | 0 <= i < |d| ensures d[i] != '-' {
      assert '0' <= d[i] <= '9';
    }
  }

  /** A seat id names one (section, row, seat number) when sections contain no '-'. */
  lemma SeatIdInjective(s1: string, r1: nat, c1: nat, s2: string, r2: nat, c2: nat)
    requires '-' !in s1 && '-' !in s2
    requires SeatId(s1, r1, c1) == SeatId(s2, r2, c2)
    ensures s1 == s2 && r1 == r2 && c1 == c2
  {
    var d1, d2 := JavaText.NatToString(r1), JavaText.NatToString(r2);
    var e1, e2 := JavaText.NatToString(c1), JavaText.NatToString(c2);
    assert SeatId(s1, r1, c1) == s1 + "-" + (d1 + "-" + e1);
    assert SeatId(s2, r2, c2) == s2 + "-" + (d2 + "-" + e2);
    DashJoinInjective(s1, d1 + "-" + e1, s2, d2 + "-" + e2);
    NoDashInDigits(r1);
    NoDashInDigits(r2);
    DashJoinInjective(d1, e1, d2, e2);
    JavaText.NatToStringInjective(r1, r2);
    JavaText.NatToStringInjective(c1, c2);
  }

  /** Within one event, distinct grid cells have distinct keys. */
  lemma GridKeyInjective(eventId: string, s1: string, r1: nat, c1: nat, s2: string, r2: nat, c2: nat)
    requires '-' !in s1 && '-' !in s2
    requires (s1, r1, c1) != (s2, r2, c2)
    ensures GridKey(eventId, s1, r1, c1) != GridKey(eventId, s2, r2, c2)
  {
    if GridKey(eventId, s1, r1, c1) == GridKey(eventId, s2, r2, c2) {
      var n := |eventId| + 1;
      assert GridKey(eventId, s1, r1, c1)[n..] == SeatId(s1, r1, c1);
      assert GridKey(eventId, s2, r2, c2)[n..] == SeatId(s2, r2, c2);
      SeatIdInjective(s1, r1, c1, s2, r2, c2);
    }
  }

  /** The keys of seats 1..n of one row. */
  ghost function RowKeys(eventId: string, section: string, row: nat, n: nat): set<string>
  {
    set c: nat | 1 <= c <= n :: GridKey(eventId, section, row, c)
  }

  /** The keys of rows 1..rows, seats 1..cols of a section, gathered row by row. */
  ghost function GridKeys(eventId: string, section: string, rows: nat, cols: nat): set<string>
  {
    if rows == 0 then {} else GridKeys(eventId, section, rows - 1, cols) + RowKeys(eventId, section, rows, cols)
  }

  /** Every grid key is the key of a cell of the grid. */
  lemma {:induction false} GridKeyOf(eventId: string, section: string, rows: nat, cols: nat, k: string)
    returns (r: nat, c: nat)
    requires k in GridKeys(eventId, section, rows, cols)
    ensures 1 <= r <= rows && 1 <= c <= cols && k == GridKey(eventId, section, r, c)
  {
    if k in RowKeys(eventId, section, rows, cols) {
      r := rows;
      c :| 1 <= c <= cols && k == GridKey(eventId, section, rows, c);
    } else {
      r, c := GridKeyOf(eventId, section, rows - 1, cols, k);
    }
  }

  /** Every cell of the grid has its key among the grid keys. */
  lemma {:induction false} GridKeyIn(eventId: string, section: string, rows: nat, cols: nat, r: nat, c: nat)
    requires 1 <= r <= rows && 1 <= c <= cols
    ensures GridKey(eventId, section, r, c) in GridKeys(eventId, section, rows, cols)
  {
    if r == rows {
      assert GridKey(eventId, section, r, c) in RowKeys(eventId, section, rows, cols);
    } else {
      GridKeyIn(eventId, section, rows - 1, cols, r, c);
    }
  }

  lemma RowKeysStep(eventId: string, section: string, row: nat, n: nat)
    requires n >= 1
    ensures RowKeys(eventId, section, row, n) == RowKeys(eventId, section, row, n - 1) + {GridKey(eventId, section, row, n)}
  {
  }

  /** A row of n seats has n distinct keys. */
  lemma {:induction false} RowKeysCard(eventId: string, section: string, row: nat, n: nat)
    requires '-' !in section
    ensures |RowKeys(eventId, section, row, n)| == n
  {
    if n == 0 {
      assert RowKeys(eventId, section, row, n) == {};
    } else {
      var prev, key := RowKeys(eventId, section, row, n - 1), GridKey(eventId, section, row, n);
      assert key !in prev by {
        forall c: nat | 1 <= c <= n - 1 ensures GridKey(eventId, section, row, c) != key {
          GridKeyInjective(eventId, section, row, c, section, row, n);
        }
      }
      assert |RowKeys(eventId, section, row, n)| == |prev| + 1 by {
        RowKeysStep(eventId, section, row, n);
      }
      RowKeysCard(eventId, section, row, n - 1);
    }
  }

  /** A grid of rows × cols seats has rows × cols distinct keys. */
  lemma {:induction false} GridKeysCard(eventId: string, section: string, rows: nat, cols: nat)
    requires '-' !in section
    ensures |GridKeys(eventId, section, rows, cols)| == rows * cols
  {
    if rows == 0 {
      assert GridKeys(eventId, section, rows, cols) == {};
    } else {
      var g', row := GridKeys(eventId, section, rows - 1, cols), RowKeys(eventId, section, rows, cols);
      assert g' * row == {} by {
        forall k | k in g' ensures k !in row {
          var r, c := GridKeyOf(eventId, section, rows - 1, cols, k);
          NotInOtherRow(eventId, section, r, c, rows, cols);
        }
      }
      assert |GridKeys(eventId, section, rows, cols)| == |g'| + |row|;
      GridKeysCard(eventId, section, rows - 1, cols);
      RowKeysCard(eventId, section, rows, cols);
      assert (rows - 1) * cols + cols == rows * cols by {
        assert (rows - 1) * cols == rows * cols - cols;
      }
    }
  }

  /** A cell of one section is not among the keys of another section's grid. */
  lemma NotInOtherGrid(eventId: string, s1: string, r: nat, c: nat, s2: string, rows: nat, cols: nat)
    requires '-' !in s1 && '-' !in s2 && s1 != s2
    ensures GridKey(eventId, s1, r, c) !in GridKeys(eventId, s2, rows, cols)
  {
    if GridKey(eventId, s1, r, c) in GridKeys(eventId, s2, rows, cols) {
      var r', c' := GridKeyOf(eventId, s2, rows, cols, GridKey(eventId, s1, r, c));
      GridKeyInjective(eventId, s1, r, c, s2, r', c');
    }
  }

  /** A cell of another row is not among a row's keys. */
  lemma NotInOtherRow(eventId: string, section: string, r: nat, c: nat, row: nat, n: nat)
    requires '-' !in section && r != row
    ensures GridKey(eventId, section, r, c) !in RowKeys(eventId, section, row, n)
  {
    if GridKey(eventId, section, r, c) in RowKeys(eventId, section, row, n) {
      var c': nat :| 1 <= c' <= n && GridKey(eventId, section, r, c) == GridKey(eventId, section, row, c');
      GridKeyInjective(eventId, section, r, c, section, row, c');
    }
  }

  /** Grids of two different sections of one event share no key. */
  lemma GridsDisjoint(eventId: string, s1: string, rows1: nat, cols1: nat, s2: string, rows2: nat, cols2: nat)
    requires '-' !in s1 && '-' !in s2 && s1 != s2
    ensures forall k | k in GridKeys(eventId, s1, rows1, cols1) :: k !in GridKeys(eventId, s2, rows2, cols2)
  {
    forall k | k in GridKeys(eventId, s1, rows1, cols1) ensures k !in GridKeys(eventId, s2, rows2, cols2) {
      var r, c := GridKeyOf(eventId, s1, rows1, cols1, k);
      NotInOtherGrid(eventId, s1, r, c, s2, rows2, cols2);
    }
  }

  /** The fixed sample events; `createdAt` is the start-up clock reading. */
  function Event1(createdAt: DateTime): (e: Event)
    ensures e.eventId == "EVT001" && e.IsOpen() && e.maxConcurrentUsers == 100
  {
    Event("EVT001", "2026 신년 콘서트", "올림픽 체조경기장", DateTime(2026, 2, 1, 19, 0, 0), 100, OPEN, createdAt)
  }

  function Event2(createdAt: DateTime): (e: Event)
    ensures e.eventId == "EVT002" && e.status == UPCOMING && e.maxConcurrentUsers == 200
  {
    Event("EVT002", "2026 봄 뮤직 페스티벌", "잠실 종합운동장", DateTime(2026, 4, 15, 18, 0, 0), 200, UPCOMING, createdAt)
  }

  /**
   * A seat as `createSectionSeats` builds it: named after its section, row
   * and number, and priced at its grade's default price (its fixed fields;
   * its status is `Available` below).
   */
  ghost predicate SeededSeat(seat: Seat, eventId: string, section: string, grade: SeatGrade)
  {
    seat.eventId == eventId && seat.section == section && seat.rowNum >= 1 && seat.seatNum >= 1 &&
    seat.seatId == SeatId(section, seat.rowNum, seat.seatNum) && seat.grade == grade &&
    seat.price == grade.DefaultPrice()
  }

  /** Every key in `keys` holds, in `store`, an AVAILABLE seat. */
  ghost predicate Available(store: map<string, Seat>, keys: set<string>)
    reads store.Values
  {
    forall k | k in keys :: k in store && store[k].status == AVAILABLE
  }

  /** Seats 1..n of a row are in `store` and AVAILABLE. */
  ghost predicate RowAvailable(store: map<string, Seat>, eventId: string, section: string, row: nat, n: nat)
    reads store.Values
  {
    forall c: nat | 1 <= c <= n ::
      GridKey(eventId, section, row, c) in store && store[GridKey(eventId, section, row, c)].status == AVAILABLE
  }

  /** Seats 1..cols of rows 1..rows of a section are in `store` and AVAILABLE. */
  ghost predicate GridAvailable(store: map<string, Seat>, eventId: string, section: string, rows: nat, cols: nat)
    reads store.Values
  {
    forall r: nat, c: nat | 1 <= r <= rows && 1 <= c <= cols ::
      GridKey(eventId, section, r, c) in store && store[GridKey(eventId, section, r, c)].status == AVAILABLE
  }

  /**
   * Rows 1..rows of a section are seeded over `before`: their keys were
   * added, each holds a seeded seat, and each seat is AVAILABLE.
   */
  ghost predicate GridSeeded(before: map<string, Seat>, after: map<string, Seat>, eventId: string, section: string,
                             grade: SeatGrade, rows: nat, cols: nat)
    reads after.Values
  {
    AddedOver(before, after, GridKeys(eventId, section, rows, cols)) &&
    Seeded(after, GridKeys(eventId, section, rows, cols), eventId, section, grade) &&
    GridAvailable(after, eventId, section, rows, cols)
  }

  /**
   * Seats 1..n of a row are seeded over `before`: their keys were added,
   * each holds a seeded seat, and each seat is AVAILABLE.
   */
  ghost predicate RowSeeded(before: map<string, Seat>, after: map<string, Seat>, eventId: string, section: string,
                            grade: SeatGrade, row: nat, n: nat)
    reads after.Values
  {
    AddedOver(before, after, RowKeys(eventId, section, row, n)) &&
    Seeded(after, RowKeys(eventId, section, row, n), eventId, section, grade) &&
    RowAvailable(after, eventId, section, row, n)
  }

  /** Saving an AVAILABLE seat `n` over seats 1..n-1 of a row leaves seats 1..n available. */
  lemma RowAvailableStep(mid: map<string, Seat>, after: map<string, Seat>, eventId: string, section: string,
                         row: nat, n: nat)
    requires n >= 1
    requires RowAvailable(mid, eventId, section, row, n - 1)
    requires GridKey(eventId, section, row, n) in after
    requires after == mid[GridKey(eventId, section, row, n) := after[GridKey(eventId, section, row, n)]]
    requires after[GridKey(eventId, section, row, n)].status == AVAILABLE
    ensures RowAvailable(after, eventId, section, row, n)
  {
    var key := GridKey(eventId, section, row, n);
    forall c: nat | 1 <= c <= n
      ensures GridKey(eventId, section, row, c) in after && after[GridKey(eventId, section, row, c)].status == AVAILABLE
    {
      var k := GridKey(eventId, section, row, c);
      if k != key {
        assert c < n && after[k] == mid[k];
      }
    }
  }

  /** Saving row `row` over a grid of `row - 1` available rows leaves `row` available rows. */
  lemma GridAvailableStep(mid: map<string, Seat>, after: map<string, Seat>, eventId: string, section: string,
                          row: nat, cols: nat)
    requires row >= 1
    requires GridAvailable(mid, eventId, section, row - 1, cols)
    requires AddedOver(mid, after, RowKeys(eventId, section, row, cols))
    requires RowAvailable(after, eventId, section, row, cols)
    ensures GridAvailable(after, eventId, section, row, cols)
  {
    forall r: nat, c: nat | 1 <= r <= row && 1 <= c <= cols
      ensures GridKey(eventId, section, r, c) in after && after[GridKey(eventId, section, r, c)].status == AVAILABLE
    {
      var k := GridKey(eventId, section, r, c);
      if r < row && k !in RowKeys(eventId, section, row, cols) {
        assert after[k] == mid[k];
      } else if r < row {
        var c': nat :| 1 <= c' <= cols && k == GridKey(eventId, section, row, c');
      }
    }
  }

  /** The grid's keys are its cells' keys, so an available grid has available keys. */
  lemma GridAvailableKeys(store: map<string, Seat>, eventId: string, section: string, rows: nat, cols: nat)
    requires GridAvailable(store, eventId, section, rows, cols)
    ensures Available(store, GridKeys(eventId, section, rows, cols))
  {
    forall k | k in GridKeys(eventId, section, rows, cols) ensures k in store && store[k].status == AVAILABLE {
      var r, c := GridKeyOf(eventId, section, rows, cols, k);
    }
  }

  /** Seeding the keys `h` keeps the available seats of keys `g` apart from them. */
  lemma AvailableKept(before: map<string, Seat>, after: map<string, Seat>, g: set<string>, h: set<string>)
    requires Available(before, g) && AddedOver(before, after, h) && g !! h
    ensures Available(after, g)
  {
    forall k | k in g ensures k in after && after[k].status == AVAILABLE {
      assert after[k] == before[k];
    }
  }

  /** Every key in `keys` holds, in `store`, a seeded seat of that section and grade. */
  ghost predicate Seeded(store: map<string, Seat>, keys: set<string>, eventId: string, section: string, grade: SeatGrade)
  {
    forall k | k in keys :: k in store && SeededSeat(store[k], eventId, section, grade)
  }

  /** `after` holds the keys of `before` and `keys`, and the seats of `before` outside `keys`. */
  ghost predicate AddedOver(before: map<string, Seat>, after: map<string, Seat>, keys: set<string>)
  {
    after.Keys == before.Keys + keys && forall k | k in before && k !in keys :: after[k] == before[k]
  }

  /** Seeding `g` and then `h` seeds `g + h`. */
  lemma SeedCompose(before: map<string, Seat>, mid: map<string, Seat>, after: map<string, Seat>,
                    g: set<string>, h: set<string>, eventId: string, section: string, grade: SeatGrade)
    requires AddedOver(before, mid, g) && Seeded(mid, g, eventId, section, grade)
    requires AddedOver(mid, after, h) && Seeded(after, h, eventId, section, grade)
    ensures AddedOver(before, after, g + h) && Seeded(after, g + h, eventId, section, grade)
  {
    forall k | k in g + h ensures k in after && SeededSeat(after[k], eventId, section, grade) {
      if k !in h {
        assert after[k] == mid[k];
      }
    }
  }

  /** Seeding the keys `h` keeps the seeded seats of keys `g` apart from them. */
  lemma SeededKept(before: map<string, Seat>, after: map<string, Seat>, g: set<string>, h: set<string>,
                   eventId: string, section: string, grade: SeatGrade)
    requires Seeded(before, g, eventId, section, grade) && AddedOver(before, after, h) && g !! h
    ensures Seeded(after, g, eventId, section, grade)
  {
    forall k | k in g ensures k in after && SeededSeat(after[k], eventId, section, grade) {
      assert after[k] == before[k];
    }
  }

  class DataInitializer {
    const eventRepository: EventRepository.EventMemoryRepository
    const seatRepository: SeatRepository.SeatMemoryRepository

    constructor (eventRepository: EventRepository.EventMemoryRepository, seatRepository: SeatRepository.SeatMemoryRepository)
      ensures this.eventRepository == eventRepository && this.seatRepository == seatRepository
    {
      this.eventRepository := eventRepository;
      this.seatRepository := seatRepository;
    }

    /** Every key in `keys` holds a seeded, AVAILABLE seat of that section and grade. */
    ghost predicate SeededKeys(keys: set<string>, eventId: string, section: string, grade: SeatGrade)
      reads seatRepository, seatRepository.store.Values
    {
      Seeded(seatRepository.store, keys, eventId, section, grade) && Available(seatRepository.store, keys)
    }

    /** `init`: the two events, then the seats of EVT001. */
    method Init(createdAt: DateTime)
      requires eventRepository.Valid() && seatRepository.Valid()
      modifies eventRepository, seatRepository
      ensures eventRepository.Valid() && seatRepository.Valid()
      ensures eventRepository.store == old(eventRepository.store)["EVT001" := Event1(createdAt)]["EVT002" := Event2(createdAt)]
      ensures seatRepository.store.Keys == old(seatRepository.store.Keys) +
        GridKeys("EVT001", "A", 2, 5) + GridKeys("EVT001", "B", 4, 5) + GridKeys("EVT001", "C", 4, 5)
      ensures SeededKeys(GridKeys("EVT001", "A", 2, 5), "EVT001", "A", VIP)
      ensures SeededKeys(GridKeys("EVT001", "B", 4, 5), "EVT001", "B", R)
      ensures SeededKeys(GridKeys("EVT001", "C", 4, 5), "EVT001", "C", S)
      ensures seatRepository.EventKeys("EVT001") == old(seatRepository.EventKeys("EVT001")) +
        GridKeys("EVT001", "A", 2, 5) + GridKeys("EVT001", "B", 4, 5) + GridKeys("EVT001", "C", 4, 5)
    {
      CreateEvents(createdAt);
      CreateSeats();
    }

    /** `createEvents`: EVT001 open for 100 concurrent users, EVT002 upcoming for 200. */
    method CreateEvents(createdAt: DateTime)
      requires eventRepository.Valid()
      modifies eventRepository
      ensures eventRepository.Valid()
      ensures eventRepository.store == old(eventRepository.store)["EVT001" := Event1(createdAt)]["EVT002" := Event2(createdAt)]
      ensures eventRepository.FindById("EVT001") == Some(Event1(createdAt))
      ensures eventRepository.FindById("EVT002") == Some(Event2(createdAt))
    {
      var _ := eventRepository.Save(Event1(createdAt));
      var _ := eventRepository.Save(Event2(createdAt));
    }

    /** `createSeats`: sections A (VIP, 2 × 5), B (R, 4 × 5) and C (S, 4 × 5) of EVT001. */
    method CreateSeats()
      requires seatRepository.Valid()
      modifies seatRepository
      ensures seatRepository.Valid()
      ensures seatRepository.store.Keys == old(seatRepository.store.Keys) +
        GridKeys("EVT001", "A", 2, 5) + GridKeys("EVT001", "B", 4, 5) + GridKeys("EVT001", "C", 4, 5)
      ensures SeededKeys(GridKeys("EVT001", "A", 2, 5), "EVT001", "A", VIP)
      ensures SeededKeys(GridKeys("EVT001", "B", 4, 5), "EVT001", "B", R)
      ensures SeededKeys(GridKeys("EVT001", "C", 4, 5), "EVT001", "C", S)
      ensures seatRepository.EventKeys("EVT001") == old(seatRepository.EventKeys("EVT001")) +
        GridKeys("EVT001", "A", 2, 5) + GridKeys("EVT001", "B", 4, 5) + GridKeys("EVT001", "C", 4, 5)
    {
      var eventId := "EVT001";
      GridsDisjoint(eventId, "A", 2, 5, "B", 4, 5);
      GridsDisjoint(eventId, "A", 2, 5, "C", 4, 5);
      GridsDisjoint(eventId, "B", 4, 5, "C", 4, 5);
      ghost var a, b, c := GridKeys(eventId, "A", 2, 5), GridKeys(eventId, "B", 4, 5), GridKeys(eventId, "C", 4, 5);
      CreateSectionSeats(eventId, "A", VIP, 2, 5);
      ghost var afterA := seatRepository.store;
      CreateSectionKeeping(eventId, "B", R, 4, 5, a);
      ghost var afterB := seatRepository.store;
      SeededKept(afterA, afterB, a, b, eventId, "A", VIP);
      CreateSectionKeeping(eventId, "C", S, 4, 5, a + b);
      SeededKept(afterB, seatRepository.store, a, c, eventId, "A", VIP);
      SeededKept(afterB, seatRepository.store, b, c, eventId, "B", R);
    }

    /** `createSectionSeats` over a store whose seats at keys `kept`, outside the grid, stay AVAILABLE. */
    method CreateSectionKeeping(eventId: string, section: string, grade: SeatGrade, rows: nat, seatsPerRow: nat,
                                ghost kept: set<string>)
      requires seatRepository.Valid()
      requires Available(seatRepository.store, kept) && kept !! GridKeys(eventId, section, rows, seatsPerRow)
      modifies seatRepository
      ensures seatRepository.Valid()
      ensures AddedOver(old(seatRepository.store), seatRepository.store, GridKeys(eventId, section, rows, seatsPerRow))
      ensures SeededKeys(GridKeys(eventId, section, rows, seatsPerRow), eventId, section, grade)
      ensures Available(seatRepository.store, kept)
      ensures seatRepository.EventKeys(eventId) == old(seatRepository.EventKeys(eventId)) + GridKeys(eventId, section, rows, seatsPerRow)
    {
      ghost var before := seatRepository.store;
      CreateSectionSeats(eventId, section, grade, rows, seatsPerRow);
      assert Available(before, kept);
      AvailableKept(before, seatRepository.store, kept, GridKeys(eventId, section, rows, seatsPerRow));
    }

    /**
     * `createSectionSeats`: for row 1..rows and seat 1..seatsPerRow, saves a
     * fresh AVAILABLE seat at the grade's default price. Keys outside the
     * grid keep their seats.
     */
    method CreateSectionSeats(eventId: string, section: string, grade: SeatGrade, rows: nat, seatsPerRow: nat)
      requires seatRepository.Valid()
      modifies seatRepository
      ensures seatRepository.Valid()
      ensures AddedOver(old(seatRepository.store), seatRepository.store, GridKeys(eventId, section, rows, seatsPerRow))
      ensures SeededKeys(GridKeys(eventId, section, rows, seatsPerRow), eventId, section, grade)
      ensures seatRepository.EventKeys(eventId) == old(seatRepository.EventKeys(eventId)) + GridKeys(eventId, section, rows, seatsPerRow)
    {
      ghost var before := seatRepository.store;
      CreateGridSeats(eventId, section, grade, rows, seatsPerRow);
      assert seatRepository.EventKeys(eventId) == old(seatRepository.EventKeys(eventId)) + GridKeys(eventId, section, rows, seatsPerRow) by {
        EventKeysAfterSeeding(before, seatRepository.store, eventId, GridKeys(eventId, section, rows, seatsPerRow));
      }
      GridAvailableKeys(seatRepository.store, eventId, section, rows, seatsPerRow);
    }

    /** The two nested loops of `createSectionSeats`: rows 1..rows, each of seats 1..seatsPerRow. */
    method CreateGridSeats(eventId: string, section: string, grade: SeatGrade, rows: nat, seatsPerRow: nat)
      requires seatRepository.Valid()
      modifies seatRepository
      ensures seatRepository.Valid()
      ensures GridSeeded(old(seatRepository.store), seatRepository.store, eventId, section, grade, rows, seatsPerRow)
    {
      ghost var before := seatRepository.store;
      // `done` counts the finished rows; the pass builds row `done + 1`.
      var done := 0;
      while done < rows
        invariant done <= rows
        invariant seatRepository.Valid()
        invariant GridSeeded(before, seatRepository.store, eventId, section, grade, done, seatsPerRow)
      {
        CreateRowOver(eventId, section, grade, done, seatsPerRow, before);
        done := done + 1;
      }
    }

    /** One pass of the outer loop: row `done + 1` joins rows 1..done seeded from `before`. */
    method CreateRowOver(eventId: string, section: string, grade: SeatGrade, done: nat, seatsPerRow: nat,
                         ghost before: map<string, Seat>)
      requires seatRepository.Valid()
      requires GridSeeded(before, seatRepository.store, eventId, section, grade, done, seatsPerRow)
      modifies seatRepository
      ensures seatRepository.Valid()
      ensures GridSeeded(before, seatRepository.store, eventId, section, grade, done + 1, seatsPerRow)
    {
      ghost var mid := seatRepository.store;
      CreateRowSeats(eventId, section, grade, done + 1, seatsPerRow);
      GridAvailableStep(mid, seatRepository.store, eventId, section, done + 1, seatsPerRow);
      SeedCompose(before, mid, seatRepository.store, GridKeys(eventId, section, done, seatsPerRow),
                  RowKeys(eventId, section, done + 1, seatsPerRow), eventId, section, grade);
    }

    /** The inner loop of `createSectionSeats`: seats 1..seatsPerRow of one row. */
    method CreateRowSeats(eventId: string, section: string, grade: SeatGrade, row: nat, seatsPerRow: nat)
      requires row >= 1
      requires seatRepository.Valid()
      modifies seatRepository
      ensures seatRepository.Valid()
      ensures AddedOver(old(seatRepository.store), seatRepository.store, RowKeys(eventId, section, row, seatsPerRow))
      ensures Seeded(seatRepository.store, RowKeys(eventId, section, row, seatsPerRow), eventId, section, grade)
      ensures RowAvailable(seatRepository.store, eventId, section, row, seatsPerRow)
    {
      ghost var before := seatRepository.store;
      // `done` counts the finished seats; the pass builds seat `done + 1`.
      var done := 0;
      while done < seatsPerRow
        invariant done <= seatsPerRow
        invariant seatRepository.Valid()
        invariant RowSeeded(before, seatRepository.store, eventId, section, grade, row, done)
      {
        CreateSeatOver(eventId, section, grade, row, done, before);
        done := done + 1;
      }
    }

    /** One pass of the inner loop: seat `done + 1` joins seats 1..done of the row. */
    method CreateSeatOver(eventId: string, section: string, grade: SeatGrade, row: nat, done: nat,
                          ghost before: map<string, Seat>)
      requires row >= 1
      requires seatRepository.Valid()
      requires RowSeeded(before, seatRepository.store, eventId, section, grade, row, done)
      modifies seatRepository
      ensures seatRepository.Valid()
      ensures RowSeeded(before, seatRepository.store, eventId, section, grade, row, done + 1)
    {
      ghost var mid := seatRepository.store;
      CreateSeat(eventId, section, grade, row, done + 1);
      assert RowAvailable(mid, eventId, section, row, done);
      RowAvailableStep(mid, seatRepository.store, eventId, section, row, done + 1);
      RowKeysStep(eventId, section, row, done + 1);
      SeedCompose(before, mid, seatRepository.store, RowKeys(eventId, section, row, done),
                  {GridKey(eventId, section, row, done + 1)}, eventId, section, grade);
    }

    /** The body of the inner loop: build the seat and save it under its key. */
    method CreateSeat(eventId: string, section: string, grade: SeatGrade, row: nat, seatNum: nat)
      requires row >= 1 && seatNum >= 1
      requires seatRepository.Valid()
      modifies seatRepository
      ensures seatRepository.Valid()
      ensures GridKey(eventId, section, row, seatNum) in seatRepository.store
      ensures seatRepository.store == old(seatRepository.store)[GridKey(eventId, section, row, seatNum) := seatRepository.store[GridKey(eventId, section, row, seatNum)]]
      ensures SeededSeat(seatRepository.store[GridKey(eventId, section, row, seatNum)], eventId, section, grade)
      ensures fresh(seatRepository.store[GridKey(eventId, section, row, seatNum)])
      ensures seatRepository.store[GridKey(eventId, section, row, seatNum)].status == AVAILABLE
    {
      var seatId := SeatId(section, row, seatNum);
      var seat := new Seat(seatId, eventId, section, row, seatNum, grade, grade.DefaultPrice(), AVAILABLE);
      var _ := seatRepository.Save(seat);
    }
  }

  /** Seeding the keys of a grid with seats of one event adds exactly those keys to the event's keys. */
  lemma EventKeysAfterSeeding(before: map<string, Seat>, after: map<string, Seat>, eventId: string, grid: set<string>)
    requires after.Keys == before.Keys + grid
    requires forall k | k in before && k !in grid :: after[k] == before[k]
    requires forall k | k in grid :: k in after && after[k].eventId == eventId
    ensures (set k | k in after && after[k].eventId == eventId) == (set k | k in before && before[k].eventId == eventId) + grid
  {
  }

  /** Seeding an empty store leaves 50 seats, all of them of EVT001. */
  lemma FreshSeedCounts(seats: map<string, Seat>)
    requires seats.Keys == GridKeys("EVT001", "A", 2, 5) + GridKeys("EVT001", "B", 4, 5) + GridKeys("EVT001", "C", 4, 5)
    requires forall k | k in seats :: seats[k].eventId == "EVT001"
    ensures |seats| == 50
    ensures |set k | k in seats && seats[k].eventId == "EVT001"| == 50
  {
    SeatKeysCard("EVT001");
    assert (set k | k in seats && seats[k].eventId == "EVT001") == seats.Keys;
  }

  /** The three sections of an event hold 10 + 20 + 20 distinct keys. */
  lemma SeatKeysCard(eventId: string)
    ensures |GridKeys(eventId, "A", 2, 5) + GridKeys(eventId, "B", 4, 5) + GridKeys(eventId, "C", 4, 5)| == 50
  {
    var a, b, c := GridKeys(eventId, "A", 2, 5), GridKeys(eventId, "B", 4, 5), GridKeys(eventId, "C", 4, 5);
    GridKeysCard(eventId, "A", 2, 5);
    GridKeysCard(eventId, "B", 4, 5);
    GridKeysCard(eventId, "C", 4, 5);
    GridsDisjoint(eventId, "A", 2, 5, "B", 4, 5);
    GridsDisjoint(eventId, "A", 2, 5, "C", 4, 5);
    GridsDisjoint(eventId, "B", 4, 5, "C", 4, 5);
    assert a * b == {} && (a + b) * c == {};
    assert |a + b| == 30;
  }
}
