# TiketWave reservation core, modelled in Dafny

This project models the sequential logic of the TiketWave ticket-reservation
back end (a C# / EF Core service) and proves properties of that model. It
covers four pieces:

- **`ReservaRepository`** (module `DAO`). This is the data-access object through which the
  reservation flow changes the seat inventory and the reservations. The
  repository's own writes are modelled. The controllers that write the
  context directly are left out. The EF Core `DbContext` becomes a class
  with two map fields, one for seats (`asientos`) and one for reservations
  (`reservas`), plus the next value of the reservations' identity column.
  `TryReserve` is a check-then-set on one seat. `Expire` writes the `Expirado`
  status on one reservation. `Create` inserts under an id that is not in use.
  `Get` is a lookup.
- **`AsignacionJusta`** (module `Servicios`). This is the process-wide table of claimed seat
  ids. `TryClaim` succeeds only for a seat nobody holds. `Release` gives the
  seat back. A ghost history of calls ties the object to a replay function.
  The mutual-exclusion lemmas are stated over that function.
- **`RedisCacheService`** (module `Cache`). This is the in-memory cache that maps a key to a value
  and an optional expiry. The clock (`DateTime.UtcNow`) is an argument `now`
  measured in DateTime ticks. An expired entry is evicted by the lookup that
  finds it.
- **`Usuario.NombreCompleto`** (module `Entidades`). This is the display-name rule: the first name
  alone when the surname is blank (in the sense of `String.IsNullOrWhiteSpace` and
  `Char.IsWhiteSpace`), otherwise first name, a space, then surname.

Each state-changing method is specified by a pure function of the old state:
`ReserveSeat`, `ExpireReservation`, `InsertReservation`, `ClaimSeat`,
`ReleaseSeat`, `CacheLookup`, `CacheStore` and `CacheRemove`. The lemmas are
proved about those functions. `ReserveAll` and `Replay` run sequences of calls,
one after another. They carry the no-double-booking and mutual-exclusion lemmas.

Modelling choices, where the code does not match its own entity classes:

- Ids are `int`, as in the entities (`Reserva.Id`, `Asiento.Id`). The
  repository interface declares them as `Guid`. The claim table really is
  keyed by `Guid`, so there a `Guid` is its 128-bit integer value.
- The repository reads and writes `asiento.Disponible`, a property that `Asiento` does
  not declare. It is modelled by the seeded seat status catalogue:
  `Disponible` (id 1) and `NoDisponible` (id 2, "No Disponible").
  "Available" means the status is `Disponible`. Marking a seat unavailable sets
  `NoDisponible`.
- The repository writes `r.Estado = "Expirado"`, a string property that `Reserva`
  does not declare. The reservation status is modelled as a closed enumeration
  of the three seeded rows `aprobado` (1), `espera` (2) and `cancelada` (3),
  plus `Expirado`, which has no seeded row.
- One could expect expiry to cancel the reservation. The code writes
  `Expirado` instead, and it does so whatever the current status is, even
  `cancelada`. The model follows the code. Expiry leaves the seat untouched.
- Reservation ids follow EF Core over a by-default identity column
  (`UseIdentityColumn` under Npgsql). A row whose `Id` is left at its default
  0 takes the sequence's next value, so callers that leave `Id` at 0 get
  1, 2, 3, …. The controller passes the posted entity through unchanged, so
  a non-zero `Id` is stored as given. The sequence can later hand out that
  same value. That insert then fails on the duplicate key, and its sequence
  value is used up, as a rolled-back insert's is. An insert under an id
  that is already taken fails and changes nothing. The column is a 32-bit
  `integer`, so a generated insert fails once 2147483647 has been used.
- `SetAsync` computes the expiry with `DateTime.AddSeconds`, which throws when
  the result falls outside the DateTime range. The model's `Set` then returns
  `false` and leaves the cache unchanged. The TTL is a 32-bit `int?`. A
  negative TTL gives an expiry in the past.

## Model

| member | source | states |
|---|---|---|
| `Entidades.EstadoAsientoId` | Reserva.Infrastructure/Persistencia/ContextoReserva.cs:95-98 | a seat status's seeded key is 1 or 2 |
| `Entidades.EstadoAsientoDesdeId` | Reserva.Infrastructure/Persistencia/ContextoReserva.cs:95-98 | a key names a seat status exactly when it is 1 or 2, and then it is that status's key |
| `Entidades.EstadoAsientoIdRoundTrip` | Reserva.Infrastructure/Persistencia/ContextoReserva.cs:95-98 | a seat status read back from its key is the same status |
| `Entidades.EstadoAsientoNombreInjective` | Reserva.Infrastructure/Persistencia/ContextoReserva.cs:96-97 | the seeded seat status names are distinct |
| `Entidades.EstadoReservaId` | Reserva.Infrastructure/Persistencia/ContextoReserva.cs:100-104 | exactly the three seeded statuses have a key, in 1..3; Expirado has none |
| `Entidades.EstadoReservaDesdeId` | Reserva.Infrastructure/Persistencia/ContextoReserva.cs:100-104 | a key names a reservation status exactly when it is in 1..3, and then it is that status's key |
| `Entidades.EstadoReservaIdRoundTrip` | Reserva.Infrastructure/Persistencia/ContextoReserva.cs:100-104 | every seeded reservation status is read back from its key |
| `Entidades.EstadoReservaNombreInjective` | Reserva.Infrastructure/Persistencia/ContextoReserva.cs:101-103 | the four status names ("aprobado", "espera", "cancelada", "Expirado") tell the statuses apart |
| `Entidades.NombreCompleto` | Reserva.Domain/Entidades/Usuario.cs:18 | the first name is a prefix; a blank surname gives the first name; otherwise the length is first + 1 + surname, with a space after the first name and the surname after it |
| `Entidades.NombreCompletoDefaultApellido` | Reserva.Domain/Entidades/Usuario.cs:16-18 | with the default empty surname the display name is the first name |
| `Entidades.NombreCompletoDeterminesApellido` | Reserva.Domain/Entidades/Usuario.cs:18 | for one first name, equal display names mean equal surnames or two blank surnames |
| `DAO.ReserveSeat` | Reserva.Infrastructure/DAO/ReservaRepository.cs:35-44 | true exactly when the seat exists and is available; on false nothing changes; on true only that seat's status changes, to NoDisponible; afterwards the seat is never available |
| `DAO.ExpireReservation` | Reserva.Infrastructure/DAO/ReservaRepository.cs:46-52 | an unknown id changes nothing; a known one gets status Expirado and no other field or row changes |
| `DAO.InsertReservation` | Reserva.Infrastructure/Persistencia/ContextoReserva.cs:39-41 | a default id takes the sequence's next value, any other id is kept; fails exactly when the sequence is exhausted or the id is taken, then leaving the table as it was; on success the row is stored under an id not in use before and no other row changes; the sequence advances exactly when a default-id insert drew a value |
| `DAO.FindReservation` | Reserva.Infrastructure/DAO/ReservaRepository.cs:30-33 | some row exactly when the id is in the table, and then that row |
| `DAO.InsertPreservesConsistent` | Reserva.Infrastructure/DAO/ReservaRepository.cs:23-28 | an insert keeps the store consistent, and looking the created row's id up returns it |
| `DAO.DefaultIdInsertSucceeds` | Reserva.API/Controllers/ReservaController.cs:29-32 | while every id came from the sequence, a default-id insert succeeds under the next value and keeps that so |
| `DAO.ExplicitIdBlocksGeneratedId` | Reserva.API/Controllers/ReservaController.cs:25-32 | a posted id 1 is stored as given; the next default-id insert draws 1, fails on the taken key, and uses the value up |
| `DAO.UpdatesPreserveConsistent` | Reserva.Infrastructure/DAO/ReservaRepository.cs:35-52 | TryReserve and Expire keep every row under its own id and the identity sequence in range |
| `DAO.ReserveTwice` | Reserva.Infrastructure/DAO/ReservaRepository.cs:35-44 | of two reservations of one seat in a row, the first wins only if the seat was available, and the second loses and changes nothing |
| `DAO.ReserveIgnoresReservaId` | Reserva.Infrastructure/DAO/ReservaRepository.cs:35 | the reservation id argument has no effect on TryReserve |
| `DAO.ExpireIdempotent` | Reserva.Infrastructure/DAO/ReservaRepository.cs:46-52 | a second Expire of the same reservation changes nothing further |
| `DAO.ReserveAll` | Reserva.Infrastructure/DAO/ReservaRepository.cs:35-44 | a sequence of TryReserve calls gives one outcome per call and keeps the set of seats |
| `DAO.ExactlyOneWinner` | Reserva.Infrastructure/DAO/ReservaRepository.cs:38-43 | of any sequence of calls, exactly one call for a seat succeeds if the seat was available and none otherwise; a requested seat ends unavailable, an unrequested one unchanged |
| `DAO.ReservaRepository.constructor` | Reserva.Infrastructure/DAO/ReservaRepository.cs:18-21 | a store over a context already holding the given consistent seats, reservations and identity value |
| `DAO.ReservaRepository.Create` | Reserva.Infrastructure/DAO/ReservaRepository.cs:23-28 | the store and identity change as InsertReservation says; the result is the row as stored, or none when the save fails; a created row's id was not in use and Get finds it; seats are untouched |
| `DAO.ReservaRepository.Get` | Reserva.Infrastructure/DAO/ReservaRepository.cs:30-33 | the stored reservation with that id, or none when there is none |
| `DAO.ReservaRepository.TryReserve` | Reserva.Infrastructure/DAO/ReservaRepository.cs:35-44 | the outcome and the new seats are those of ReserveSeat; reservations are untouched |
| `DAO.ReservaRepository.Expire` | Reserva.Infrastructure/DAO/ReservaRepository.cs:46-52 | the reservations change as ExpireReservation says; seats are untouched |
| `Servicios.ClaimSeat` | Reserva.Domain/Servicios/AsignacionJusta.cs:15-18 | true exactly when the seat was not claimed; the seat is claimed afterwards; every other seat keeps its status |
| `Servicios.ReleaseSeat` | Reserva.Domain/Servicios/AsignacionJusta.cs:20-23 | the seat is not claimed afterwards; every other seat keeps its status; releasing an unclaimed seat changes nothing |
| `Servicios.ClaimAfterRelease` | Reserva.Domain/Servicios/AsignacionJusta.cs:15-23 | a claim right after a release of the seat succeeds |
| `Servicios.ClaimTwice` | Reserva.Domain/Servicios/AsignacionJusta.cs:15-18 | a second claim of a seat fails and changes nothing |
| `Servicios.StaysClaimed` | Reserva.Domain/Servicios/AsignacionJusta.cs:15-23 | a claimed seat stays claimed through any calls that do not release it |
| `Servicios.MutualExclusion` | Reserva.Domain/Servicios/AsignacionJusta.cs:15-18 | in any sequence of calls, a claim fails when the same seat was claimed earlier with no release in between |
| `Servicios.ClaimRightAfterRelease` | Reserva.Domain/Servicios/AsignacionJusta.cs:15-23 | in any sequence of calls, a claim directly after a release of that seat succeeds |
| `Servicios.OtherSeatsUntouched` | Reserva.Domain/Servicios/AsignacionJusta.cs:13-23 | calls on other seats never change a seat's claim status |
| `Servicios.AsignacionJusta.constructor` | Reserva.Domain/Servicios/AsignacionJusta.cs:13 | the table starts empty, with an empty call history |
| `Servicios.AsignacionJusta.TryClaim` | Reserva.Domain/Servicios/AsignacionJusta.cs:15-18 | outcome and new table are those of ClaimSeat; the outcome is ClaimOutcome of the recorded history |
| `Servicios.AsignacionJusta.Release` | Reserva.Domain/Servicios/AsignacionJusta.cs:20-23 | the new table is that of ReleaseSeat; the call is recorded |
| `Cache.AddSeconds` | Reserva.Infrastructure/Servicios/RedisCacheService.cs:40-41 | defined exactly when the instant plus the seconds is a DateTime, and then that many seconds of ticks later |
| `Cache.CacheLookup` | Reserva.Infrastructure/Servicios/RedisCacheService.cs:16-29 | a value exactly when the key is present and not strictly past its expiry, and then its value; the key is evicted exactly when none is returned; other entries are unchanged |
| `Cache.CacheStore` | Reserva.Infrastructure/Servicios/RedisCacheService.cs:37-45 | fails exactly when the TTL's expiry is out of range; otherwise the key holds the new value, with no expiry without a TTL and now + TTL with one; other keys are unchanged |
| `Cache.CacheRemove` | Reserva.Infrastructure/Servicios/RedisCacheService.cs:31-35 | the key is gone and every other entry is unchanged |
| `Cache.LookupMissing` | Reserva.Infrastructure/Servicios/RedisCacheService.cs:16-35 | a key never set, or removed, gives none and changes nothing |
| `Cache.StoreWithoutTtlLasts` | Reserva.Infrastructure/Servicios/RedisCacheService.cs:37-43 | a value stored without a TTL is found at every instant |
| `Cache.StoreWithTtlExpires` | Reserva.Infrastructure/Servicios/RedisCacheService.cs:16-45 | a value stored with a TTL expires at now + TTL; it is found up to and including that instant, and after it the lookup gives none and evicts only the key |
| `Cache.StoreOverwrites` | Reserva.Infrastructure/Servicios/RedisCacheService.cs:43 | storing over a key replaces both the value and the expiry of the earlier entry |
| `Cache.RemoveIdempotent` | Reserva.Infrastructure/Servicios/RedisCacheService.cs:31-35 | removing a key twice is the same as removing it once |
| `Cache.RedisCacheService.constructor` | Reserva.Infrastructure/Servicios/RedisCacheService.cs:14 | the cache starts empty |
| `Cache.RedisCacheService.Get` | Reserva.Infrastructure/Servicios/RedisCacheService.cs:16-29 | result and new entries are those of CacheLookup |
| `Cache.RedisCacheService.Set` | Reserva.Infrastructure/Servicios/RedisCacheService.cs:37-45 | stores as CacheStore says, or reports failure and leaves the cache unchanged |
| `Cache.RedisCacheService.Remove` | Reserva.Infrastructure/Servicios/RedisCacheService.cs:31-35 | the new entries are those of CacheRemove |

## Left out

- Concurrency. `ConcurrentDictionary`, the `static` sharing of the cache and the claim table, and `async`/`Task` become one object whose calls run one after another. `ExactlyOneWinner` and `MutualExclusion` therefore hold for calls run in sequence. `TryReserveAsync` has no lock (its locking is a placeholder comment), so the model does not cover interleaved concurrent calls.
- Database behaviour. `SaveChangesAsync` becomes a map update. The model does not cover optimistic-concurrency failures on `RowVersion`, foreign-key checks on insert, or storage errors other than identity exhaustion and duplicate keys.
- Clock and timestamps. `DateTime.UtcNow` is the argument `now`. `Reserva.CreatedAt` is kept as a tick count, and the controller sets it.
- Null strings. `null` keys, values and surnames are not modelled. The properties are non-nullable `string`s, and a `null` key makes `ConcurrentDictionary` throw before any logic runs.
- NotificationService and ReservaSingletonService. They are a background queue worker and a semaphore around arbitrary work, which is concurrency and I/O.
- Everything else outside the four pieces above: the controllers (including `AsientoController.CreateAsiento` and `ReservaDbController.CreateReserva`, which add rows to the context without going through the repository), dependency wiring, middleware, the EF Core mapping other than the seeded status ids and the identity column, the state and observer placeholder classes, and the interfaces.
- Reserve, Cancel and row-locking flows. The code does not implement the event start-time checks, the stadium-matching checks, the row locking, or a Cancel that frees the seat, so the model has none of them.
