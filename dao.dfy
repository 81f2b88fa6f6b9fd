/**
 * The reservation repository: the single access point that changes the seat
 * inventory and the reservations, over an in-memory image of the database.
 */
module DAO {
  import opened Wrappers
  import opened Entidades

  /** The seat rows are available for reservation. */
  predicate EstaDisponible(asientos: map<int, Asiento>, asientoId: int)
  {
    asientoId in asientos && asientos[asientoId].estado == Disponible
  }

  /**
   * The store invariant: every row sits under its own id, and the identity
   * sequence's next value is a 32-bit value or one past the last.
   */
  predicate Consistent(asientos: map<int, Asiento>, reservas: map<int, Reserva>, nextId: int)
  {
    && 1 <= nextId <= MaxInt32 + 1
    && (forall id :: id in asientos ==> asientos[id].id == id)
    && (forall id :: id in reservas ==> reservas[id].id == id)
  }

  /**
   * Check-then-set on one seat: a missing or unavailable seat gives false and
   * changes nothing; an available seat becomes unavailable and gives true.
   * The reservation id takes no part.
   */
  function ReserveSeat(asientos: map<int, Asiento>, asientoId: int, reservaId: int): (r: (bool, map<int, Asiento>))
    ensures r.0 <==> EstaDisponible(asientos, asientoId)
    ensures r.1.Keys == asientos.Keys
    ensures !r.0 ==> r.1 == asientos
    ensures r.0 ==> r.1[asientoId] == asientos[asientoId].(estado := NoDisponible)
    ensures forall id :: id in asientos && id != asientoId ==> r.1[id] == asientos[id]
    ensures !EstaDisponible(r.1, asientoId)
  {
    if !EstaDisponible(asientos, asientoId) then (false, asientos)
    else (true, asientos[asientoId := asientos[asientoId].(estado := NoDisponible)])
  }

  /** Writes Expirado on one reservation, whatever its status; an unknown id changes nothing. */
  function ExpireReservation(reservas: map<int, Reserva>, reservaId: int): (r: map<int, Reserva>)
    ensures r.Keys == reservas.Keys
    ensures reservaId in reservas ==> r[reservaId] == reservas[reservaId].(estado := Expirado)
    ensures forall id :: id in reservas && id != reservaId ==> r[id] == reservas[id]
    ensures reservaId !in reservas ==> r == reservas
  {
    if reservaId in reservas then reservas[reservaId := reservas[reservaId].(estado := Expirado)]
    else reservas
  }

  /** What an insert leaves behind: the row as stored, if any, the table and the identity sequence. */
  datatype Inserted = Inserted(created: Option<Reserva>, reservas: map<int, Reserva>, nextId: int)

  /**
   * Adds a reservation and saves it, as EF Core does over a by-default
   * identity column. A row whose id is the default 0 takes the sequence's
   * next value, which is used up even when the insert then fails; a row
   * with any other id is stored under that id. The insert fails, leaving
   * the table as it was, when the 32-bit sequence is exhausted or the id is
   * already taken.
   */
  function InsertReservation(reservas: map<int, Reserva>, nextId: int, reserva: Reserva): (r: Inserted)
    ensures var id := if reserva.id == 0 then nextId else reserva.id;
      r.created.None? <==> (reserva.id == 0 && nextId > MaxInt32) || id in reservas
    ensures r.created.Some? ==>
      && r.created.value == (if reserva.id == 0 then reserva.(id := nextId) else reserva)
      && r.created.value.id !in reservas
      && r.reservas.Keys == reservas.Keys + {r.created.value.id}
      && r.reservas[r.created.value.id] == r.created.value
    ensures forall id :: id in reservas ==> id in r.reservas && r.reservas[id] == reservas[id]
    ensures r.created.None? ==> r.reservas == reservas
    ensures r.nextId == if reserva.id == 0 && nextId <= MaxInt32 then nextId + 1 else nextId
  {
    if reserva.id != 0 then
      if reserva.id in reservas then Inserted(None, reservas, nextId)
      else Inserted(Some(reserva), reservas[reserva.id := reserva], nextId)
    else if nextId > MaxInt32 then Inserted(None, reservas, nextId)
    else
      var created := reserva.(id := nextId);
      if nextId in reservas then Inserted(None, reservas, nextId + 1)
      else Inserted(Some(created), reservas[nextId := created], nextId + 1)
  }

  /** Looks a reservation up by id. */
  function FindReservation(reservas: map<int, Reserva>, id: int): (r: Option<Reserva>)
    ensures r.Some? <==> id in reservas
    ensures r.Some? ==> r.value == reservas[id]
  {
    if id in reservas then Some(reservas[id]) else None
  }

  /** Inserting into a consistent store keeps it consistent, and the created row is found under its id. */
  lemma InsertPreservesConsistent(asientos: map<int, Asiento>, reservas: map<int, Reserva>, nextId: int, reserva: Reserva)
    requires Consistent(asientos, reservas, nextId)
    ensures var ins := InsertReservation(reservas, nextId, reserva);
      && Consistent(asientos, ins.reservas, ins.nextId)
      && (ins.created.Some? ==> FindReservation(ins.reservas, ins.created.value.id) == ins.created)
  {
  }

  /** Every id in the table was handed out by the identity sequence, which starts at 1. */
  predicate OnlyGeneratedIds(reservas: map<int, Reserva>, nextId: int)
  {
    1 <= nextId && forall id :: id in reservas ==> 1 <= id < nextId
  }

  /**
   * While callers leave the id at 0 the sequence assigns 1, 2, 3, ...: an
   * insert succeeds under nextId until the 32-bit column is exhausted.
   */
  lemma DefaultIdInsertSucceeds(reservas: map<int, Reserva>, nextId: int, reserva: Reserva)
    requires OnlyGeneratedIds(reservas, nextId)
    requires reserva.id == 0 && nextId <= MaxInt32
    ensures var ins := InsertReservation(reservas, nextId, reserva);
      && ins.created == Some(reserva.(id := nextId))
      && ins.nextId == nextId + 1
      && OnlyGeneratedIds(ins.reservas, ins.nextId)
  {
  }

  /**
   * A caller-supplied id is stored as given, and the sequence later hands
   * out the same value: that generated insert fails on the taken key, and
   * its sequence value is used up.
   */
  lemma ExplicitIdBlocksGeneratedId(r: Reserva)
    ensures var first := InsertReservation(map[], 1, r.(id := 1));
      var second := InsertReservation(first.reservas, first.nextId, r.(id := 0));
      && first.created == Some(r.(id := 1)) && first.nextId == 1
      && second.created == None && second.reservas == first.reservas && second.nextId == 2
  {
  }

  /** Reservation and expiry keep the store consistent. */
  lemma UpdatesPreserveConsistent(asientos: map<int, Asiento>, reservas: map<int, Reserva>, nextId: int, asientoId: int, reservaId: int)
    requires Consistent(asientos, reservas, nextId)
    ensures Consistent(ReserveSeat(asientos, asientoId, reservaId).1, reservas, nextId)
    ensures Consistent(asientos, ExpireReservation(reservas, reservaId), nextId)
  {
  }

  /** Two reservations of one seat in a row: the first wins only if the seat was available, the second always loses. */
  lemma ReserveTwice(asientos: map<int, Asiento>, asientoId: int, reservaId1: int, reservaId2: int)
    ensures var (ok1, after1) := ReserveSeat(asientos, asientoId, reservaId1);
      var (ok2, after2) := ReserveSeat(after1, asientoId, reservaId2);
      ok1 == EstaDisponible(asientos, asientoId) && !ok2 && after2 == after1
  {
  }

  /** The reservation id passed to TryReserve has no effect on the outcome. */
  lemma ReserveIgnoresReservaId(asientos: map<int, Asiento>, asientoId: int, reservaId1: int, reservaId2: int)
    ensures ReserveSeat(asientos, asientoId, reservaId1) == ReserveSeat(asientos, asientoId, reservaId2)
  {
  }

  /** Expiry is idempotent and leaves seats alone (seats are not an argument). */
  lemma ExpireIdempotent(reservas: map<int, Reserva>, reservaId: int)
    ensures ExpireReservation(ExpireReservation(reservas, reservaId), reservaId) == ExpireReservation(reservas, reservaId)
  {
  }

  /** One call of TryReserve, in a sequence of calls. */
  datatype ReserveCall = ReserveCall(asientoId: int, reservaId: int)

  /** The outcomes and the final seats of a sequence of TryReserve calls, run one after another. */
  function ReserveAll(asientos: map<int, Asiento>, calls: seq<ReserveCall>): (r: (seq<bool>, map<int, Asiento>))
    ensures |r.0| == |calls|
    ensures r.1.Keys == asientos.Keys
    decreases |calls|
  {
    if calls == [] then ([], asientos)
    else
      var (ok, next) := ReserveSeat(asientos, calls[0].asientoId, calls[0].reservaId);
      var (oks, last) := ReserveAll(next, calls[1..]);
      ([ok] + oks, last)
  }

  /** Some call in the sequence asks for seat s. */
  predicate Requested(calls: seq<ReserveCall>, s: int)
  {
    exists i :: 0 <= i < |calls| && calls[i].asientoId == s
  }

  /** How many calls for seat s succeeded. */
  function Wins(calls: seq<ReserveCall>, oks: seq<bool>, s: int): nat
    requires |oks| == |calls|
  {
    if calls == [] then 0
    else (if calls[0].asientoId == s && oks[0] then 1 else 0) + Wins(calls[1..], oks[1..], s)
  }

  /**
   * No double booking: of any number of calls for seat s, run one after
   * another, exactly one succeeds when s was available and none otherwise;
   * afterwards s is unavailable if it was asked for, and untouched if not.
   */
  lemma {:induction false} ExactlyOneWinner(asientos: map<int, Asiento>, calls: seq<ReserveCall>, s: int)
    ensures Wins(calls, ReserveAll(asientos, calls).0, s)
         == if EstaDisponible(asientos, s) && Requested(calls, s) then 1 else 0
    ensures s in asientos && Requested(calls, s) ==> !EstaDisponible(ReserveAll(asientos, calls).1, s)
    ensures s in asientos && !Requested(calls, s) ==> ReserveAll(asientos, calls).1[s] == asientos[s]
    decreases |calls|
  {
    if calls != [] {
      var (ok, next) := ReserveSeat(asientos, calls[0].asientoId, calls[0].reservaId);
      var (oks, last) := ReserveAll(next, calls[1..]);
      ExactlyOneWinner(next, calls[1..], s);
      assert ReserveAll(asientos, calls) == ([ok] + oks, last);
      assert ([ok] + oks)[1..] == oks;
      assert Requested(calls, s) <==> calls[0].asientoId == s || Requested(calls[1..], s) by {
        if Requested(calls[1..], s) {
          var i :| 0 <= i < |calls[1..]| && calls[1..][i].asientoId == s;
          assert calls[i + 1].asientoId == s;
        }
        if Requested(calls, s) && calls[0].asientoId != s {
          var i :| 0 <= i < |calls| && calls[i].asientoId == s;
          assert calls[1..][i - 1].asientoId == s;
        }
      }
    }
  }

  /**
   * The repository over the database context: the seat and reservation
   * tables as maps, and the next value of the reservations' identity column.
   */
  class ReservaRepository {
    var asientos: map<int, Asiento>
    var reservas: map<int, Reserva>
    var nextId: int

    ghost predicate Valid()
      reads this
    {
      Consistent(asientos, reservas, nextId)
    }

    /** A store over a database context that already holds these rows and this identity value. */
    constructor (seats: map<int, Asiento>, rows: map<int, Reserva>, identity: int)
      requires Consistent(seats, rows, identity)
      ensures Valid()
      ensures asientos == seats && reservas == rows && nextId == identity
    {
      asientos := seats;
      reservas := rows;
      nextId := identity;
    }

    /** CreateAsync: adds the reservation and returns it as stored, or none when the save fails. */
    method Create(reserva: Reserva) returns (created: Option<Reserva>)
      requires Valid()
      modifies this
      ensures Valid()
      ensures asientos == old(asientos)
      ensures var ins := InsertReservation(old(reservas), old(nextId), reserva);
        created == ins.created && reservas == ins.reservas && nextId == ins.nextId
      ensures created.Some? ==> created.value.id !in old(reservas) && FindReservation(reservas, created.value.id) == created
    {
      var ins := InsertReservation(reservas, nextId, reserva);
      InsertPreservesConsistent(asientos, reservas, nextId, reserva);
      reservas, nextId := ins.reservas, ins.nextId;
      created := ins.created;
    }

    /** GetAsync: the reservation stored under the id, or none. */
    method Get(id: int) returns (r: Option<Reserva>)
      requires Valid()
      ensures r == FindReservation(reservas, id)
      ensures r.Some? ==> r.value.id == id
    {
      r := FindReservation(reservas, id);
    }

    /** TryReserveAsync: marks an available seat unavailable and reports whether it was. */
    method TryReserve(asientoId: int, reservaId: int) returns (ok: bool)
      requires Valid()
      modifies this
      ensures Valid()
      ensures (ok, asientos) == ReserveSeat(old(asientos), asientoId, reservaId)
      ensures reservas == old(reservas) && nextId == old(nextId)
    {
      UpdatesPreserveConsistent(asientos, reservas, nextId, asientoId, reservaId);
      if asientoId !in asientos || asientos[asientoId].estado != Disponible {
        return false;
      }
      asientos := asientos[asientoId := asientos[asientoId].(estado := NoDisponible)];
      ok := true;
    }

    /** ExpireAsync: writes Expirado on the reservation, if there is one. */
    method Expire(reservaId: int)
      requires Valid()
      modifies this
      ensures Valid()
      ensures reservas == ExpireReservation(old(reservas), reservaId)
      ensures asientos == old(asientos) && nextId == old(nextId)
    {
      UpdatesPreserveConsistent(asientos, reservas, nextId, 0, reservaId);
      if reservaId !in reservas {
        return;
      }
      reservas := reservas[reservaId := reservas[reservaId].(estado := Expirado)];
    }
  }

  /** A caller's view: the class contracts alone show that a seat is not booked twice. */
  method ReserveSameSeatTwice(seatId: int, estadioId: int)
  {
    var repo := new ReservaRepository(map[seatId := Asiento(seatId, Disponible, estadioId)], map[], 1);
    var first := repo.TryReserve(seatId, 1);
    var second := repo.TryReserve(seatId, 2);
    assert first && !second;
    repo.Expire(7);
    assert repo.reservas == map[];
  }
}
