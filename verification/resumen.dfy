/**
 * The "Resumen por Día" tables of the office and admin dashboards:
 * `df.groupby("fecha").agg(sum)` with `ganancia = canto / 2`, the grand
 * totals under it, and the admin's office selector and filter.
 *
 * `canto` is a `real`, so sums and halves are exact.
 */
module Resumen {
  import opened Seqs
  import opened Ordering
  import opened Registros

  /** The summed columns of a group. */
  datatype Totales = Totales(consultas: int, controles: int, mensajes: int, llamadas: int, canto: real)

  const Cero := Totales(0, 0, 0, 0, 0.0)

  function Sumar(a: Totales, b: Totales): Totales {
    Totales(a.consultas + b.consultas, a.controles + b.controles, a.mensajes + b.mensajes,
            a.llamadas + b.llamadas, a.canto + b.canto)
  }

  function DeRegistro(r: Registro): Totales {
    Totales(r.consultas, r.controles, r.mensajes, r.llamadas, r.canto)
  }

  /** Column sums over a list of records, added up in order. */
  function Suma(rs: seq<Registro>): Totales {
    if rs == [] then Cero else Sumar(Suma(rs[..|rs| - 1]), DeRegistro(rs[|rs| - 1]))
  }

  /** The records of day `f`, in their order. */
  function DelDia(rs: seq<Registro>, f: string): seq<Registro> {
    Where(rs, (r: Registro) => r.fecha == f)
  }

  /** The `fecha` column. */
  function Fechas(rs: seq<Registro>): seq<string> {
    Map(rs, (r: Registro) => r.fecha)
  }

  /** A summary row: the day, its column sums, and `ganancia`. */
  datatype Fila = Fila(fecha: string, totales: Totales, ganancia: real)

  /** The groupby as a dictionary: each day seen so far mapped to its running sums. */
  function Agrupar(rs: seq<Registro>): map<string, Totales> {
    if rs == [] then map[]
    else
      var m, r := Agrupar(rs[..|rs| - 1]), rs[|rs| - 1];
      m[r.fecha := Sumar(if r.fecha in m then m[r.fecha] else Cero, DeRegistro(r))]
  }

  lemma SumaSnoc(rs: seq<Registro>, r: Registro)
    ensures Suma(rs + [r]) == Sumar(Suma(rs), DeRegistro(r))
  {
    assert (rs + [r])[..|rs|] == rs;
  }

  /** Appending a record adds it to its own day and to no other. */
  lemma DelDiaSnoc(rs: seq<Registro>, r: Registro, f: string)
    ensures Suma(DelDia(rs + [r], f)) == if r.fecha == f then Sumar(Suma(DelDia(rs, f)), DeRegistro(r)) else Suma(DelDia(rs, f))
  {
    assert (rs + [r])[..|rs|] == rs;
    assert DelDia(rs + [r], f) == DelDia(rs, f) + (if r.fecha == f then [r] else []);
    if r.fecha == f {
      SumaSnoc(DelDia(rs, f), r);
    } else {
      assert DelDia(rs, f) + [] == DelDia(rs, f);
    }
  }

  /** A day that does not occur has no records. */
  lemma DelDiaAusente(rs: seq<Registro>, f: string)
    requires f !in Fechas(rs)
    ensures DelDia(rs, f) == []
  {
    MapMember(rs, (r: Registro) => r.fecha, f);
    WhereNone(rs, (r: Registro) => r.fecha == f);
  }

  lemma FechasSnoc(rs: seq<Registro>, r: Registro)
    ensures Fechas(rs + [r]) == Fechas(rs) + [r.fecha]
  {
    assert (rs + [r])[..|rs|] == rs;
  }

  /** The dictionary has exactly the days that occur, each holding the sums of that day's records. */
  lemma {:induction false} AgruparCorrecto(rs: seq<Registro>)
    ensures forall f :: f in Agrupar(rs) <==> f in Fechas(rs)
    ensures forall f :: f in Agrupar(rs) ==> Agrupar(rs)[f] == Suma(DelDia(rs, f))
  {
    if rs != [] {
      var init, r := rs[..|rs| - 1], rs[|rs| - 1];
      assert rs == init + [r];
      AgruparCorrecto(init);
      FechasSnoc(init, r);
      forall f | f in Agrupar(rs)
        ensures Agrupar(rs)[f] == Suma(DelDia(rs, f))
      {
        DelDiaSnoc(init, r, f);
        if f == r.fecha && f !in Agrupar(init) {
          DelDiaAusente(init, f);
        }
      }
    }
  }

  /** One row per key, in the order of `keys`, read from the dictionary `m`. */
  function FilasDe(keys: seq<string>, m: map<string, Totales>): (filas: seq<Fila>)
    requires forall k :: k in keys ==> k in m
    ensures |filas| == |keys|
    ensures forall i :: 0 <= i < |filas| ==> filas[i] == Fila(keys[i], m[keys[i]], m[keys[i]].canto / 2.0)
  {
    if keys == [] then []
    else
      var k := keys[|keys| - 1];
      FilasDe(keys[..|keys| - 1], m) + [Fila(k, m[k], m[k].canto / 2.0)]
  }

  /** The summary table, `resumen["ganancia"] = resumen["canto"] / 2` included. */
  function ResumenPorDia(rs: seq<Registro>): seq<Fila> {
    AgruparCorrecto(rs);
    FilasDe(SortedUnique(Fechas(rs)), Agrupar(rs))
  }

  /**
   * One row per distinct day, ordered by the `fecha` text as pandas sorts
   * group keys; each row holds the sums over exactly that day's records, and
   * its `ganancia` is half its `canto`.
   */
  lemma ResumenPorDiaCorrecto(rs: seq<Registro>)
    ensures var filas := ResumenPorDia(rs);
      forall i, j :: 0 <= i < j < |filas| ==> Less(filas[i].fecha, filas[j].fecha)
    ensures var filas := ResumenPorDia(rs);
      forall f :: f in Fechas(rs) <==> exists i :: 0 <= i < |filas| && filas[i].fecha == f
    ensures var filas := ResumenPorDia(rs);
      forall i :: 0 <= i < |filas| ==> filas[i].totales == Suma(DelDia(rs, filas[i].fecha))
    ensures var filas := ResumenPorDia(rs);
      forall i :: 0 <= i < |filas| ==> filas[i].ganancia == filas[i].totales.canto / 2.0
  {
    var keys, filas := SortedUnique(Fechas(rs)), ResumenPorDia(rs);
    ResumenFilas(rs);
    forall f | f in Fechas(rs)
      ensures exists i :: 0 <= i < |filas| && filas[i].fecha == f
    {
      var i :| 0 <= i < |keys| && keys[i] == f;
      assert filas[i].fecha == f;
    }
  }

  /** Row `i` is the `i`-th distinct day with the sums of its records. */
  lemma ResumenFilas(rs: seq<Registro>)
    ensures var filas, keys := ResumenPorDia(rs), SortedUnique(Fechas(rs));
      |filas| == |keys| && forall i :: 0 <= i < |filas| ==>
        filas[i].fecha == keys[i] && filas[i].totales == Suma(DelDia(rs, keys[i]))
        && filas[i].ganancia == filas[i].totales.canto / 2.0
  {
    AgruparCorrecto(rs);
  }

  /** The grand-total metrics: each column summed over the summary rows. */
  function TotalFilas(filas: seq<Fila>): Totales {
    if filas == [] then Cero else Sumar(TotalFilas(filas[..|filas| - 1]), filas[|filas| - 1].totales)
  }

  function TotalGanancia(filas: seq<Fila>): real {
    if filas == [] then 0.0 else TotalGanancia(filas[..|filas| - 1]) + filas[|filas| - 1].ganancia
  }

  predicate Distintas(keys: seq<string>) {
    forall i, j :: 0 <= i < j < |keys| ==> keys[i] != keys[j]
  }

  /** The sums of the days `keys`, added up in the order of `keys`. */
  function SumaDias(keys: seq<string>, rs: seq<Registro>): Totales {
    if keys == [] then Cero else Sumar(SumaDias(keys[..|keys| - 1], rs), Suma(DelDia(rs, keys[|keys| - 1])))
  }

  lemma {:induction false} SumaDiasVacio(keys: seq<string>)
    ensures SumaDias(keys, []) == Cero
  {
    if keys != [] {
      SumaDiasVacio(keys[..|keys| - 1]);
    }
  }

  /** A new record shows up once in the sums over distinct days: in its own day, if listed. */
  lemma {:induction false} SumaDiasSnoc(keys: seq<string>, rs: seq<Registro>, r: Registro)
    requires Distintas(keys)
    ensures SumaDias(keys, rs + [r]) == if r.fecha in keys then Sumar(SumaDias(keys, rs), DeRegistro(r)) else SumaDias(keys, rs)
  {
    if keys != [] {
      var init, k := keys[..|keys| - 1], keys[|keys| - 1];
      assert keys == init + [k];
      assert Distintas(init);
      SumaDiasSnoc(init, rs, r);
      DelDiaSnoc(rs, r, k);
      var a, b, x := SumaDias(init, rs), Suma(DelDia(rs, k)), DeRegistro(r);
      assert SumaDias(keys, rs) == Sumar(a, b);
      if r.fecha == k {
        assert r.fecha !in init;
        SumarSwap(a, b, x);
      } else if r.fecha in init {
        SumarSwap(a, b, x);
      }
    }
  }

  /** Adding `x` first or last comes to the same. */
  lemma SumarSwap(a: Totales, b: Totales, x: Totales)
    ensures Sumar(Sumar(a, x), b) == Sumar(Sumar(a, b), x)
    ensures Sumar(a, Sumar(b, x)) == Sumar(Sumar(a, b), x)
  {
  }

  /** Summing over distinct days that cover every record's day gives the sum over all records. */
  lemma {:induction false} SumaDiasTodo(keys: seq<string>, rs: seq<Registro>)
    requires Distintas(keys)
    requires forall f :: f in Fechas(rs) ==> f in keys
    ensures SumaDias(keys, rs) == Suma(rs)
  {
    if rs == [] {
      SumaDiasVacio(keys);
    } else {
      var init, r := rs[..|rs| - 1], rs[|rs| - 1];
      assert rs == init + [r];
      FechasSnoc(init, r);
      SumaDiasTodo(keys, init);
      SumaDiasSnoc(keys, init, r);
    }
  }

  lemma {:induction false} TotalFilasDias(filas: seq<Fila>, rs: seq<Registro>)
    requires forall i :: 0 <= i < |filas| ==> filas[i].totales == Suma(DelDia(rs, filas[i].fecha))
    ensures TotalFilas(filas) == SumaDias(Map(filas, (x: Fila) => x.fecha), rs)
  {
    if filas != [] {
      TotalFilasDias(filas[..|filas| - 1], rs);
    }
  }

  lemma {:induction false} TotalGananciaMitad(filas: seq<Fila>)
    requires forall i :: 0 <= i < |filas| ==> filas[i].ganancia == filas[i].totales.canto / 2.0
    ensures TotalGanancia(filas) == TotalFilas(filas).canto / 2.0
  {
    if filas != [] {
      TotalGananciaMitad(filas[..|filas| - 1]);
    }
  }

  /**
   * The grand totals computed from the summary rows equal the direct column
   * sums over all records, and the total `ganancia` is half the total `canto`.
   */
  lemma Conservacion(rs: seq<Registro>)
    ensures TotalFilas(ResumenPorDia(rs)) == Suma(rs)
    ensures TotalGanancia(ResumenPorDia(rs)) == Suma(rs).canto / 2.0
  {
    var filas := ResumenPorDia(rs);
    ResumenPorDiaCorrecto(rs);
    var keys := Map(filas, (x: Fila) => x.fecha);
    forall i | 0 <= i < |keys|
      ensures keys[i] == filas[i].fecha
    {
      MapAt(filas, (x: Fila) => x.fecha, i);
    }
    assert Distintas(keys) by {
      forall i, j | 0 <= i < j < |keys|
        ensures keys[i] != keys[j]
      {
        LessIrreflexive(keys[i]);
      }
    }
    forall f | f in Fechas(rs)
      ensures f in keys
    {
      var i :| 0 <= i < |filas| && filas[i].fecha == f;
      assert keys[i] == f;
    }
    TotalFilasDias(filas, rs);
    SumaDiasTodo(keys, rs);
    TotalGananciaMitad(filas);
  }

  /** The selector entry that stands for "no filter". */
  const Todas: string := "Todas"

  /** The `oficina` column. */
  function Oficinas(rs: seq<Registro>): seq<string> {
    Map(rs, (r: Registro) => r.oficina)
  }

  /** `["Todas"] + sorted(df["oficina"].unique())`. */
  function OpcionesOficina(rs: seq<Registro>): (opts: seq<string>)
    ensures |opts| >= 1 && opts[0] == Todas
    ensures StrictlySorted(opts[1..])
    ensures forall o :: o in opts[1..] <==> o in Oficinas(rs)
  {
    var offices := SortedUnique(Oficinas(rs));
    assert ([Todas] + offices)[1..] == offices;
    [Todas] + offices
  }

  /** `df[df["oficina"] == filtro]` unless `filtro` is "Todas". */
  function FiltrarOficina(rs: seq<Registro>, filtro: string): (out: seq<Registro>)
    ensures filtro == Todas ==> out == rs
    ensures forall k :: 0 <= k < |out| ==> filtro == Todas || out[k].oficina == filtro
  {
    if filtro == Todas then rs else DeLaOficina(rs, filtro)
  }

  /** `.eq("oficina", username)`: the records an office reads on its own dashboard. */
  function DeLaOficina(rs: seq<Registro>, oficina: string): (out: seq<Registro>)
    ensures forall k :: 0 <= k < |out| ==> out[k].oficina == oficina
  {
    Where(rs, (r: Registro) => r.oficina == oficina)
  }

  /** An office reads exactly its own records: none of another office, none of its own missing. */
  lemma DeLaOficinaCorrecta(rs: seq<Registro>, oficina: string, r: Registro)
    ensures r in DeLaOficina(rs, oficina) <==> r in rs && r.oficina == oficina
  {
    WhereMember(rs, (x: Registro) => x.oficina == oficina, r);
  }

  /**
   * Choosing an office keeps exactly its records, and keeps them in order:
   * filtering a concatenation filters each part.
   */
  lemma FiltrarOficinaCorrecto(rs: seq<Registro>, more: seq<Registro>, filtro: string, r: Registro)
    requires filtro != Todas
    ensures r in FiltrarOficina(rs, filtro) <==> r in rs && r.oficina == filtro
    ensures FiltrarOficina(rs + more, filtro) == FiltrarOficina(rs, filtro) + FiltrarOficina(more, filtro)
  {
    WhereMember(rs, (x: Registro) => x.oficina == filtro, r);
    WhereAppend(rs, more, (x: Registro) => x.oficina == filtro);
  }

  /**
   * An office whose name is literally "Todas" cannot be selected on its own:
   * picking it in the selector shows every office's records, although that
   * office's own dashboard shows only its own.
   */
  lemma OficinaTodas(r: Registro, s: Registro)
    requires r.oficina == Todas && s.oficina != Todas
    ensures Todas in OpcionesOficina([r, s])[1..]
    ensures s in FiltrarOficina([r, s], Todas)
    ensures s !in DeLaOficina([r, s], Todas)
  {
    DeLaOficinaCorrecta([r, s], Todas, s);
    assert [r, s] == [r] + [s] && [r] == [] + [r];
    MapAppend([r], [s], (x: Registro) => x.oficina);
    MapAppend([], [r], (x: Registro) => x.oficina);
    assert Oficinas([r, s]) == [r.oficina, s.oficina];
  }

  /**
   * The rows are sorted as text, day first, not by date: 01-02-2025 (1 February)
   * comes before 02-01-2025 (2 January).
   */
  lemma OrdenTextual(r: Registro, s: Registro)
    requires r.fecha == "02-01-2025" && s.fecha == "01-02-2025"
    ensures ResumenPorDia([r, s])[0].fecha == s.fecha
  {
    var filas := ResumenPorDia([r, s]);
    ResumenPorDiaCorrecto([r, s]);
    FechasSnoc([r], s);
    FechasSnoc([], r);
    assert [r, s] == [r] + [s] && [r] == [] + [r];
    assert Fechas([r, s]) == [r.fecha, s.fecha];
    assert Less(s.fecha, r.fecha);
    assert r.fecha in Fechas([r, s]) && s.fecha in Fechas([r, s]);
    var i :| 0 <= i < |filas| && filas[i].fecha == r.fecha;
    var j :| 0 <= j < |filas| && filas[j].fecha == s.fecha;
    if i < j {
      LessAsymmetric(s.fecha, r.fecha);
    }
    if j > 0 {
      assert filas[0].fecha in Fechas([r, s]);
      LessIrreflexive(r.fecha);
    }
  }
}
