/**
 * The weekly dashboard: the password-only role decision, the automatic
 * `"{year}-W{week}"` key, the row it inserts, and which rows a session reads.
 *
 * The secret `ADMIN_PASSWORD`, today's date and `datetime.now().isoformat()`
 * are arguments.
 */
module Semanal {
  import opened Options
  import opened Seqs
  import opened Numerals
  import opened Calendar

  /** `st.session_state.username` (empty when unset) and `is_admin`. */
  datatype Sesion = Sesion(username: string, isAdmin: bool)

  /** A row of the weekly `registros` table. */
  datatype RegistroSemanal = RegistroSemanal(
    oficina: string,
    consultas: int,
    controles: int,
    ingreso: int,
    semana: string,
    fechaRegistro: string)

  /** Pressing "Entrar": the password alone decides the role; the typed name is kept either way. */
  function Login(user: string, password: string, adminPassword: string): (s: Sesion)
    ensures s.username == user
    ensures s.isAdmin <==> password == adminPassword
  {
    if password == adminPassword then Sesion(user, true) else Sesion(user, false)
  }

  /** The page goes past the login form only with a non-empty `username`. */
  predicate Entra(s: Sesion) {
    s.username != ""
  }

  /** An empty name is accepted by `Login` but never gets past the form, whatever the password. */
  lemma LoginVacio(password: string, adminPassword: string)
    ensures Login("", password, adminPassword).username == ""
    ensures !Entra(Login("", password, adminPassword))
  {
  }

  /** `f"{year}-W{week}"`: both numbers as `str` prints them, with no padding. */
  function ClaveSemana(year: nat, week: nat): string {
    Decimal(year) + "-W" + Decimal(week)
  }

  /** The key app1.py shows and stores: the CALENDAR year of the date and its ISO week number. */
  function SemanaDe(d: Date): (k: string)
    requires Valid(d)
  {
    IsoCalendarRange(d);
    ClaveSemana(d.year, IsoCalendar(d).week)
  }

  /** The length of the leading run of digits. */
  function LeadingDigits(s: string): (n: nat)
    ensures n <= |s| && AllDigits(s[..n])
    ensures n < |s| ==> !IsDigit(s[n])
  {
    if s == [] || !IsDigit(s[0]) then 0
    else
      var n := 1 + LeadingDigits(s[1..]);
      assert s[..n] == [s[0]] + s[1..][..n - 1];
      n
  }

  /** A canonical `str(n)`: digits, and no leading zero unless it is "0". */
  predicate Canonical(s: string) {
    s != [] && AllDigits(s) && (s[0] == '0' ==> s == "0")
  }

  /** Reads a week key back into its year and week, or `None` if it is not one. */
  function LeerClave(k: string): (r: Option<(nat, nat)>)
  {
    var n := LeadingDigits(k);
    if n + 2 <= |k| && k[n] == '-' && k[n + 1] == 'W' && Canonical(k[..n]) && Canonical(k[n + 2..]) then
      Some((ValueOf(k[..n]), ValueOf(k[n + 2..])))
    else
      None
  }

  lemma {:induction false} LeadingDigitsOf(a: string, b: string)
    requires AllDigits(a) && (b != [] ==> !IsDigit(b[0]))
    ensures LeadingDigits(a + b) == |a|
    decreases |a|
  {
    if a != [] {
      assert (a + b)[1..] == a[1..] + b;
      LeadingDigitsOf(a[1..], b);
    } else {
      assert a + b == b;
    }
  }

  /** The key can be read back: year and week are recovered exactly. */
  lemma LeerClaveSemana(year: nat, week: nat)
    ensures LeerClave(ClaveSemana(year, week)) == Some((year, week))
  {
    var y, w := Decimal(year), Decimal(week);
    var k := ClaveSemana(year, week);
    assert k == y + ("-W" + w);
    LeadingDigitsOf(y, "-W" + w);
    assert k[..|y|] == y;
    assert k[|y| + 2..] == w;
  }

  /** Every string `LeerClave` accepts is the key of what it reads. */
  lemma ClaveLeida(k: string)
    requires LeerClave(k).Some?
    ensures ClaveSemana(LeerClave(k).value.0, LeerClave(k).value.1) == k
  {
    var n := LeadingDigits(k);
    DecimalValueOf(k[..n]);
    DecimalValueOf(k[n + 2..]);
    assert k == k[..n] + "-W" + k[n + 2..];
  }

  /** The week part is the ISO week, from 1 to 53, and the year part is the date's own year. */
  lemma SemanaDeCorrecta(d: Date)
    requires Valid(d)
    ensures var r := LeerClave(SemanaDe(d));
      r.Some? && r.value.0 == d.year && r.value.1 == IsoCalendar(d).week && 1 <= r.value.1 <= 53
  {
    IsoCalendarRange(d);
    LeerClaveSemana(d.year, IsoCalendar(d).week);
  }

  /** 2024-12-31 is in ISO week 1 of 2025, but the key keeps the calendar year 2024. */
  lemma SemanaFinDeAnio()
    ensures IsoCalendar(Date(2024, 12, 31)).year == 2025
    ensures SemanaDe(Date(2024, 12, 31)) == "2024-W1"
  {
    IsoCalendarNewYearsEve();
    Decimal2024();
    assert Decimal(1) == "1";
  }

  /** 2023-01-01 is in ISO week 52 of 2022, and the key reads "2023-W52". */
  lemma SemanaInicioDeAnio()
    ensures SemanaDe(Date(2023, 1, 1)) == "2023-W52"
  {
    IsoCalendarNewYearsDay();
    assert Decimal(52) == Decimal(5) + [Digit(2)];
    assert Decimal(2023) == Decimal(202) + [Digit(3)];
    assert Decimal(202) == Decimal(20) + [Digit(2)];
    assert Decimal(20) == Decimal(2) + [Digit(0)];
  }

  /** Week numbers are not padded: 2024-02-01 is in week 5, written "W5". */
  lemma SemanaSinRelleno()
    ensures SemanaDe(Date(2024, 2, 1)) == "2024-W5"
  {
    IsoCalendarFebruary();
    Decimal2024();
    assert Decimal(5) == "5";
  }

  /** `str(2024)`. */
  lemma Decimal2024()
    ensures Decimal(2024) == "2024"
  {
    assert Decimal(2024) == Decimal(202) + [Digit(4)];
    assert Decimal(202) == Decimal(20) + [Digit(2)];
    assert Decimal(20) == Decimal(2) + [Digit(0)];
  }

  /** The `data` dictionary of a submitted form. */
  function Registrar(s: Sesion, consultas: int, controles: int, ingreso: int, today: Date, now: string): (r: RegistroSemanal)
    requires Valid(today)
    ensures r.oficina == s.username && r.semana == SemanaDe(today) && r.fechaRegistro == now
    ensures (r.consultas, r.controles, r.ingreso) == (consultas, controles, ingreso)
  {
    RegistroSemanal(s.username, consultas, controles, ingreso, SemanaDe(today), now)
  }

  /** The `select("*")` an admin runs, or the `eq("oficina", username)` one an office runs. */
  function Visibles(rows: seq<RegistroSemanal>, s: Sesion): (out: seq<RegistroSemanal>)
    ensures s.isAdmin ==> out == rows
    ensures !s.isAdmin ==> forall k :: 0 <= k < |out| ==> out[k].oficina == s.username
  {
    if s.isAdmin then rows else Where(rows, (r: RegistroSemanal) => r.oficina == s.username)
  }

  /** An office sees exactly its own rows; nobody else's, none of its own missing. */
  lemma VisiblesOficina(rows: seq<RegistroSemanal>, s: Sesion, r: RegistroSemanal)
    requires !s.isAdmin
    ensures r in Visibles(rows, s) <==> r in rows && r.oficina == s.username
  {
    WhereMember(rows, (x: RegistroSemanal) => x.oficina == s.username, r);
  }

  /** Whatever a session saves, it reads back next time, admin or not. */
  lemma LeeLoQueGuarda(rows: seq<RegistroSemanal>, s: Sesion, consultas: int, controles: int, ingreso: int, today: Date, now: string)
    requires Valid(today)
    ensures Registrar(s, consultas, controles, ingreso, today, now) in Visibles(rows + [Registrar(s, consultas, controles, ingreso, today, now)], s)
  {
    var r := Registrar(s, consultas, controles, ingreso, today, now);
    if !s.isAdmin {
      VisiblesOficina(rows + [r], s, r);
    }
  }
}
