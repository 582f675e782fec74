/**
 * The detailed view: `consultantes_map`, the visitor details grouped by the
 * record they belong to, and the `consultantes_map.get(id, [])` lookup.
 */
module Detalles {
  import opened Seqs
  import opened Registros

  /** The `for c in consultantes: setdefault(rid, []).append(detalle)` loop. */
  function AgruparDetalles(cs: seq<Consultante>): map<int, seq<string>> {
    if cs == [] then map[]
    else
      var m, c := AgruparDetalles(cs[..|cs| - 1]), cs[|cs| - 1];
      m[c.registroId := (if c.registroId in m then m[c.registroId] else []) + [c.detalle]]
  }

  /** `consultantes_map.get(id, [])`. */
  function Obtener(m: map<int, seq<string>>, id: int): seq<string> {
    if id in m then m[id] else []
  }

  /** Reference definition: the details of the rows tagged `id`, in row order. */
  function DetallesDe(cs: seq<Consultante>, id: int): seq<string> {
    Map(Where(cs, (c: Consultante) => c.registroId == id), (c: Consultante) => c.detalle)
  }

  lemma DetallesDeSnoc(cs: seq<Consultante>, c: Consultante, id: int)
    ensures DetallesDe(cs + [c], id) == DetallesDe(cs, id) + (if c.registroId == id then [c.detalle] else [])
  {
    var p, f := (x: Consultante) => x.registroId == id, (x: Consultante) => x.detalle;
    assert (cs + [c])[..|cs|] == cs;
    assert Where(cs + [c], p) == Where(cs, p) + (if p(c) then [c] else []);
    MapAppend(Where(cs, p), if p(c) then [c] else [], f);
    if p(c) {
      assert Map([c], f) == Map([c][..0], f) + [f(c)];
    }
  }

  /**
   * Grouping keeps each record's details in insertion order, and a record
   * without visitors gets the empty list.
   */
  lemma {:induction false} AgruparDetallesCorrecto(cs: seq<Consultante>, id: int)
    ensures Obtener(AgruparDetalles(cs), id) == DetallesDe(cs, id)
    ensures id in AgruparDetalles(cs) <==> DetallesDe(cs, id) != []
  {
    if cs != [] {
      var init, c := cs[..|cs| - 1], cs[|cs| - 1];
      assert cs == init + [c];
      AgruparDetallesCorrecto(init, id);
      DetallesDeSnoc(init, c, id);
    }
  }

  /**
   * What `guardar_registro` stores under a fresh id is read back as exactly the
   * parsed entries, and the other records' details do not change.
   */
  lemma GuardadoSeLee(cs: seq<Consultante>, id: int, entries: seq<string>, other: int)
    requires forall k :: 0 <= k < |cs| ==> cs[k].registroId != id
    requires other != id
    ensures Obtener(AgruparDetalles(cs + Payload(id, entries)), id) == entries
    ensures Obtener(AgruparDetalles(cs + Payload(id, entries)), other) == Obtener(AgruparDetalles(cs), other)
  {
    var rows := Payload(id, entries);
    var p, f := (x: Consultante) => x.registroId == id, (x: Consultante) => x.detalle;
    var q := (x: Consultante) => x.registroId == other;
    AgruparDetallesCorrecto(cs + rows, id);
    AgruparDetallesCorrecto(cs + rows, other);
    AgruparDetallesCorrecto(cs, other);
    WhereAppend(cs, rows, p);
    WhereAppend(cs, rows, q);
    WhereNone(cs, p);
    WhereNone(rows, q);
    PayloadDetalles(id, entries);
    assert Where(cs + rows, p) == rows;
    assert Where(cs + rows, q) == Where(cs, q);
  }
}
