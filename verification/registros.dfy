/**
 * `guardar_registro`: checks the session, coerces the form values, builds the
 * `registros` row dated today in `DD-MM-YYYY`, and, once the store has
 * answered with the new row's id, one `consultantes` row per parsed entry.
 *
 * The store is a pair of functions from what is inserted to the store's
 * answer; the result records every call made to it, in order, so "nothing
 * was inserted" is an empty call list. Python's `int()`/`float()` are the
 * partial functions `toInt`/`toReal`, and `date.today()` is the `today` argument.
 */
module Registros {
  import opened Options
  import opened Seqs
  import opened Calendar
  import Consultantes

  /** A row of the `registros` table as the app inserts it (the id and `fecha_registro` come from the database). */
  datatype Registro = Registro(
    oficina: string,
    consultas: int,
    controles: int,
    mensajes: int,
    llamadas: int,
    canto: real,
    fecha: string)

  /** A row of the `consultantes` table. */
  datatype Consultante = Consultante(registroId: int, detalle: string)

  /** What the form hands over; `None` is a value the widget left unset. */
  datatype Formulario<V> = Formulario(
    consultas: Option<V>,
    controles: Option<V>,
    mensajes: Option<V>,
    llamadas: Option<V>,
    canto: Option<V>,
    consultantesTexto: Option<string>)

  /** The store's answer to an insert: the ids of the rows it returned (possibly none), or an exception. */
  datatype Respuesta = Filas(ids: seq<int>) | Excepcion

  /** `response.data[0]["id"]` when `response.data` is a non-empty list; `None` when the insert answered no rows or raised. */
  function IdDe(resp: Respuesta): (id: Option<int>)
    ensures id.Some? <==> resp.Filas? && resp.ids != []
    ensures id.Some? ==> id.value == resp.ids[0]
  {
    if resp.Filas? && resp.ids != [] then Some(resp.ids[0]) else None
  }

  datatype Llamada = InsertarRegistro(registro: Registro) | InsertarConsultantes(filas: seq<Consultante>)

  /** How the visitor rows fared once the record itself was saved. */
  datatype Visitantes = SinVisitantes | VisitantesGuardados | ErrorVisitantes

  datatype Estado =
    | SinSesion
    | ValorInvalido
    | SinDatos
    | ErrorRegistro
    | Guardado(id: int, visitantes: Visitantes)

  datatype Resultado = Resultado(estado: Estado, llamadas: seq<Llamada>)

  /** The coerced counters of a form: `int(x)` or 0 for each, `float(x)` or 0.0 for `canto`. */
  datatype Valores = Valores(consultas: int, controles: int, mensajes: int, llamadas: int, canto: real)

  /** `int(v) if v is not None else 0`: `None` when `int(v)` raises. */
  function IntOr0<V>(v: Option<V>, toInt: V -> Option<int>): Option<int> {
    match v
    case None => Some(0)
    case Some(x) => toInt(x)
  }

  function RealOr0<V>(v: Option<V>, toReal: V -> Option<real>): Option<real> {
    match v
    case None => Some(0.0)
    case Some(x) => toReal(x)
  }

  /** The `try` block of the coercions: all five succeed, or the first failure aborts. */
  function Coerce<V>(f: Formulario<V>, toInt: V -> Option<int>, toReal: V -> Option<real>): (r: Option<Valores>)
    ensures r.Some? <==>
      IntOr0(f.consultas, toInt).Some? && IntOr0(f.controles, toInt).Some? && IntOr0(f.mensajes, toInt).Some?
      && IntOr0(f.llamadas, toInt).Some? && RealOr0(f.canto, toReal).Some?
    ensures f.consultas == None ==> r.Some? ==> r.value.consultas == 0
    ensures f.controles == None ==> r.Some? ==> r.value.controles == 0
    ensures f.mensajes == None ==> r.Some? ==> r.value.mensajes == 0
    ensures f.llamadas == None ==> r.Some? ==> r.value.llamadas == 0
    ensures f.canto == None ==> r.Some? ==> r.value.canto == 0.0
    ensures r.Some? && f.consultas.Some? ==> toInt(f.consultas.value) == Some(r.value.consultas)
    ensures r.Some? && f.controles.Some? ==> toInt(f.controles.value) == Some(r.value.controles)
    ensures r.Some? && f.mensajes.Some? ==> toInt(f.mensajes.value) == Some(r.value.mensajes)
    ensures r.Some? && f.llamadas.Some? ==> toInt(f.llamadas.value) == Some(r.value.llamadas)
    ensures r.Some? && f.canto.Some? ==> toReal(f.canto.value) == Some(r.value.canto)
  {
    var consultas, controles, mensajes := IntOr0(f.consultas, toInt), IntOr0(f.controles, toInt), IntOr0(f.mensajes, toInt);
    var llamadas, canto := IntOr0(f.llamadas, toInt), RealOr0(f.canto, toReal);
    if consultas.None? || controles.None? || mensajes.None? || llamadas.None? || canto.None? then None
    else Some(Valores(consultas.value, controles.value, mensajes.value, llamadas.value, canto.value))
  }

  /** `"username" in st.session_state and st.session_state.username`: a present, non-empty name. */
  predicate HaySesion(username: Option<string>) {
    username.Some? && username.value != ""
  }

  /** The `registros` row for the session user, the coerced values and today's date. */
  function NuevoRegistro(user: string, v: Valores, today: Date): (r: Registro)
    requires Valid(today)
    ensures r.oficina == user && ParseFecha(r.fecha) == Some(today)
    ensures |r.fecha| == 10 && r.fecha[2] == '-' && r.fecha[5] == '-'
    ensures Valores(r.consultas, r.controles, r.mensajes, r.llamadas, r.canto) == v
  {
    ParseFormatFecha(today);
    Registro(user, v.consultas, v.controles, v.mensajes, v.llamadas, v.canto, FormatFecha(today))
  }

  /** One `consultantes` row per entry, in the same order, all tagged with the record id. */
  function Payload(id: int, entries: seq<string>): (rows: seq<Consultante>)
    ensures |rows| == |entries|
    ensures forall k :: 0 <= k < |rows| ==> rows[k] == Consultante(id, entries[k])
  {
    if entries == [] then []
    else Payload(id, entries[..|entries| - 1]) + [Consultante(id, entries[|entries| - 1])]
  }

  /** What the visitor rows' detail column reads back as: the entries themselves. */
  lemma PayloadDetalles(id: int, entries: seq<string>)
    ensures Map(Payload(id, entries), (c: Consultante) => c.detalle) == entries
    ensures Where(Payload(id, entries), (c: Consultante) => c.registroId == id) == Payload(id, entries)
  {
    var rows, f := Payload(id, entries), (c: Consultante) => c.detalle;
    forall k | 0 <= k < |rows|
      ensures Map(rows, f)[k] == entries[k]
    {
      MapAt(rows, f, k);
    }
    WhereAll(rows, (c: Consultante) => c.registroId == id);
  }

  /** The part of `guardar_registro` after the record was inserted and answered with `id`. */
  function GuardarVisitantes(id: int, texto: Option<string>, insertConsultantes: seq<Consultante> -> Respuesta): (r: Resultado)
    ensures r.estado.Guardado? && r.estado.id == id
    ensures Consultantes.Parse(texto) == [] <==> r.llamadas == []
    ensures r.llamadas != [] ==> r.llamadas == [InsertarConsultantes(Payload(id, Consultantes.Parse(texto)))]
  {
    var entries := Consultantes.Parse(texto);
    if entries == [] then Resultado(Guardado(id, SinVisitantes), [])
    else
      var payload := Payload(id, entries);
      var visitantes := if insertConsultantes(payload).Excepcion? then ErrorVisitantes else VisitantesGuardados;
      Resultado(Guardado(id, visitantes), [InsertarConsultantes(payload)])
  }

  /** `guardar_registro(...)` run against the store `insertRegistro`/`insertConsultantes`. */
  function GuardarRegistro<V>(
    username: Option<string>,
    f: Formulario<V>,
    today: Date,
    toInt: V -> Option<int>,
    toReal: V -> Option<real>,
    insertRegistro: Registro -> Respuesta,
    insertConsultantes: seq<Consultante> -> Respuesta): (r: Resultado)
    requires Valid(today)
    ensures !HaySesion(username) ==> r == Resultado(SinSesion, [])
    ensures HaySesion(username) && Coerce(f, toInt, toReal).None? ==> r == Resultado(ValorInvalido, [])
    ensures r.llamadas != [] <==> HaySesion(username) && Coerce(f, toInt, toReal).Some?
    ensures r.llamadas != [] ==>
      r.llamadas[0] == InsertarRegistro(NuevoRegistro(username.value, Coerce(f, toInt, toReal).value, today))
    ensures r.estado.Guardado? <==> r.llamadas != [] && IdDe(insertRegistro(r.llamadas[0].registro)).Some?
    ensures r.estado.Guardado? ==> r.estado.id == IdDe(insertRegistro(r.llamadas[0].registro)).value
    ensures r.llamadas != [] && insertRegistro(r.llamadas[0].registro).Excepcion? ==> r.estado == ErrorRegistro
    ensures r.llamadas != [] && insertRegistro(r.llamadas[0].registro) == Filas([]) ==> r.estado == SinDatos
    ensures |r.llamadas| <= 2
    ensures |r.llamadas| == 2 ==>
      r.estado.Guardado? && r.llamadas[1] == InsertarConsultantes(Payload(r.estado.id, Consultantes.Parse(f.consultantesTexto)))
    ensures r.estado.Guardado? ==> (|r.llamadas| == 2 <==> Consultantes.Parse(f.consultantesTexto) != [])
  {
    if !HaySesion(username) then Resultado(SinSesion, [])
    else
      match Coerce(f, toInt, toReal)
      case None => Resultado(ValorInvalido, [])
      case Some(v) =>
        var registro := NuevoRegistro(username.value, v, today);
        var insertado := [InsertarRegistro(registro)];
        match insertRegistro(registro)
        case Excepcion => Resultado(ErrorRegistro, insertado)
        case Filas(ids) =>
          if ids == [] then Resultado(SinDatos, insertado)
          else
            var rest := GuardarVisitantes(ids[0], f.consultantesTexto, insertConsultantes);
            Resultado(rest.estado, insertado + rest.llamadas)
  }

  /** A failing visitor insert does not undo the record: the outcome is still `Guardado`. */
  lemma VisitantesNoDeshacen<V>(
    username: Option<string>, f: Formulario<V>, today: Date,
    toInt: V -> Option<int>, toReal: V -> Option<real>,
    insertRegistro: Registro -> Respuesta, insertConsultantes: seq<Consultante> -> Respuesta)
    requires Valid(today)
    requires HaySesion(username) && Coerce(f, toInt, toReal).Some?
    requires IdDe(insertRegistro(NuevoRegistro(username.value, Coerce(f, toInt, toReal).value, today))).Some?
    ensures var r := GuardarRegistro(username, f, today, toInt, toReal, insertRegistro, insertConsultantes);
      r.estado.Guardado? && (r.estado.visitantes == ErrorVisitantes <==>
        Consultantes.Parse(f.consultantesTexto) != []
        && insertConsultantes(Payload(r.estado.id, Consultantes.Parse(f.consultantesTexto))).Excepcion?)
  {
  }
}
