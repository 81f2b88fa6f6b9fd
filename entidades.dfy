/**
 * The entity records of the reservation domain and the status catalogues
 * seeded in the database, modelled as closed enumerations.
 */
module Entidades {
  import opened Wrappers

  /** Largest value of a 32-bit signed integer, the width of the entities' ids. */
  const MaxInt32: int := 0x7FFF_FFFF

  /** Seat status catalogue (table asientoEstado), seeded with two rows. */
  datatype EstadoAsiento = Disponible | NoDisponible

  /** Seeded primary key of a seat status. */
  function EstadoAsientoId(e: EstadoAsiento): (id: int)
    ensures 1 <= id <= 2
  {
    match e
    case Disponible => 1
    case NoDisponible => 2
  }

  /** Seeded name of a seat status. */
  function EstadoAsientoNombre(e: EstadoAsiento): string
  {
    match e
    case Disponible => "Disponible"
    case NoDisponible => "No Disponible"
  }

  /** Inverse of EstadoAsientoId: the status stored under a key, if any is seeded. */
  function EstadoAsientoDesdeId(id: int): (r: Option<EstadoAsiento>)
    ensures r.Some? <==> 1 <= id <= 2
    ensures r.Some? ==> EstadoAsientoId(r.value) == id
  {
    if id == 1 then Some(Disponible)
    else if id == 2 then Some(NoDisponible)
    else None
  }

  /** Every seat status survives the trip through its seeded key. */
  lemma EstadoAsientoIdRoundTrip(e: EstadoAsiento)
    ensures EstadoAsientoDesdeId(EstadoAsientoId(e)) == Some(e)
  {
  }

  /** The two seeded seat status names are distinct. */
  lemma EstadoAsientoNombreInjective(e1: EstadoAsiento, e2: EstadoAsiento)
    ensures EstadoAsientoNombre(e1) == EstadoAsientoNombre(e2) ==> e1 == e2
  {
  }

  /**
   * Reservation status: the three seeded rows of table reservaEstado plus
   * Expirado, the value the repository writes on expiry, which has no seeded row.
   */
  datatype EstadoReserva = Aprobado | Espera | Cancelada | Expirado

  /** Seeded primary key of a reservation status; Expirado has none. */
  function EstadoReservaId(e: EstadoReserva): (r: Option<int>)
    ensures r.Some? <==> e != Expirado
    ensures r.Some? ==> 1 <= r.value <= 3
  {
    match e
    case Aprobado => Some(1)
    case Espera => Some(2)
    case Cancelada => Some(3)
    case Expirado => None
  }

  /** Textual name of a reservation status, as seeded or as written on expiry. */
  function EstadoReservaNombre(e: EstadoReserva): string
  {
    match e
    case Aprobado => "aprobado"
    case Espera => "espera"
    case Cancelada => "cancelada"
    case Expirado => "Expirado"
  }

  /** Inverse of EstadoReservaId on the seeded keys. */
  function EstadoReservaDesdeId(id: int): (r: Option<EstadoReserva>)
    ensures r.Some? <==> 1 <= id <= 3
    ensures r.Some? ==> EstadoReservaId(r.value) == Some(id)
  {
    if id == 1 then Some(Aprobado)
    else if id == 2 then Some(Espera)
    else if id == 3 then Some(Cancelada)
    else None
  }

  /** Every seeded reservation status survives the trip through its key. */
  lemma EstadoReservaIdRoundTrip(e: EstadoReserva)
    requires e != Expirado
    ensures EstadoReservaId(e).Some?
    ensures EstadoReservaDesdeId(EstadoReservaId(e).value) == Some(e)
  {
  }

  /** The textual names tell the four reservation statuses apart. */
  lemma EstadoReservaNombreInjective(e1: EstadoReserva, e2: EstadoReserva)
    ensures EstadoReservaNombre(e1) == EstadoReservaNombre(e2) ==> e1 == e2
  {
  }

  /** A seat (table asiento); times and row versions are left out. */
  datatype Asiento = Asiento(id: int, estado: EstadoAsiento, estadioId: int)

  /** A reservation (table reserva); createdAt is a DateTime in ticks. */
  datatype Reserva = Reserva(
    id: int,
    usuarioId: int,
    asientoId: int,
    estadioId: int,
    estado: EstadoReserva,
    createdAt: int)

  /** A user (table usuario). */
  datatype Usuario = Usuario(id: int, nombre: string, apellido: string)

  /**
   * The characters .NET's Char.IsWhiteSpace accepts: the Unicode space,
   * line and paragraph separators and the controls U+0009..U+000D and U+0085.
   */
  predicate IsWhiteSpace(c: char)
  {
    ('\U{0009}' <= c <= '\U{000D}') || c == ' ' || c == '\U{0085}' || c == '\U{00A0}'
    || c == '\U{1680}' || ('\U{2000}' <= c <= '\U{200A}')
    || c == '\U{2028}' || c == '\U{2029}' || c == '\U{202F}' || c == '\U{205F}'
    || c == '\U{3000}'
  }

  /** String.IsNullOrWhiteSpace on a non-null string: empty or all white space. */
  predicate IsNullOrWhiteSpace(s: string)
  {
    forall i :: 0 <= i < |s| ==> IsWhiteSpace(s[i])
  }

  /**
   * The display name of a user: the first name alone when the surname is
   * blank, otherwise first name, one space and the surname.
   */
  function NombreCompleto(u: Usuario): (r: string)
    ensures u.nombre <= r
    ensures IsNullOrWhiteSpace(u.apellido) ==> r == u.nombre
    ensures !IsNullOrWhiteSpace(u.apellido) ==>
      |r| == |u.nombre| + 1 + |u.apellido| && r[|u.nombre|] == ' ' && r[|u.nombre| + 1..] == u.apellido
  {
    if IsNullOrWhiteSpace(u.apellido) then u.nombre else u.nombre + " " + u.apellido
  }

  /** A user created with the default (empty) surname is shown by first name alone. */
  lemma NombreCompletoDefaultApellido(id: int, nombre: string)
    ensures NombreCompleto(Usuario(id, nombre, "")) == nombre
  {
  }

  /**
   * Among users with the same first name, the display name determines the
   * surname, up to all blank surnames collapsing to the first name.
   */
  lemma NombreCompletoDeterminesApellido(u1: Usuario, u2: Usuario)
    requires u1.nombre == u2.nombre
    requires NombreCompleto(u1) == NombreCompleto(u2)
    ensures u1.apellido == u2.apellido
      || (IsNullOrWhiteSpace(u1.apellido) && IsNullOrWhiteSpace(u2.apellido))
  {
  }
}
