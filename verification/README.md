# Sanadores: the data logic of the office reporting app

The app lets "offices" log their daily activity and lets an administrator review it. There are two variants.

- `app.py` keeps a daily record with these counters:
  - consultas, controles, mensajes, llamadas and canto;
  - the date, as `DD-MM-YYYY`;
  - a free-text list of visitors ("consultantes"), stored as rows of their own.

  It also shows per-day summaries with totals, an office filter for the administrator, and a detailed view that groups visitors under their record.
- `app1.py` keeps a weekly record keyed by a `"{year}-W{week}"` string. Its login form decides the role from the password alone.

This project models the pure parts of both scripts as Dafny functions and proves what the scripts promise about them. The store, the clock and the session are parameters.

| module | file | models |
|---|---|---|
| `Text` | text.dfy | `str.isspace`, `str.strip()`, `str.replace(",", "\n")`, `str.splitlines()` |
| `Consultantes` | consultantes.dfy | `parse_consultantes_texto` |
| `Numerals` | numerals.dfy | `str(n)` and the zero-padded `%d`/`%m`/`%Y` fields |
| `Divisions` | divisions.dfy | floor-division facts for the leap-year rule |
| `Calendar` | calendar.dfy | `datetime.date`: validity, `toordinal`, `weekday`, `isocalendar`, `strftime("%d-%m-%Y")` |
| `Registros` | registros.dfy | `guardar_registro`: session check, coercion, the record, the visitor payload and the store calls |
| `Ordering` | ordering.dfy | Python's string order and `sorted(set(...))` |
| `Resumen` | resumen.dfy | `groupby("fecha").agg(sum)`, `ganancia`, the totals, the office selector and filter |
| `Detalles` | detalles.dfy | `consultantes_map` and `consultantes_map.get(id, [])` |
| `Semanal` | semanal.dfy | app1.py: login role, week key, submitted row, visibility |
| `Seqs`, `Options` | seqs.dfy, options.dfy | list comprehensions, `Option` |

## How the environment is modelled

- **Store.** The store is a pair of functions from what is inserted to the store's answer. The answer is either the ids of the returned rows (possibly none) or an exception. `GuardarRegistro` returns its outcome together with the list of inserts it made, in order. "Nothing was inserted" is therefore an empty list.
- **Coercion.** `int(x)` and `float(x)` are partial functions (`V -> Option<int>`, `V -> Option<real>`). `None` stands for "raises".
- **Clock and session.** `date.today()`, `datetime.now().isoformat()`, `ADMIN_PASSWORD` and the session values are arguments.

## Behaviour the model keeps as written

- **Week key.** The code writes the calendar year (`date.today().year`) and the unpadded ISO week number: 2024-12-31 gives `"2024-W1"` and 2023-01-01 gives `"2023-W52"`. An ISO 8601 week date would read `2025-W01` and `2022-W52` (week-year, two-digit week). The model keeps what the code writes, and `Semanal.SemanaFinDeAnio`, `Semanal.SemanaInicioDeAnio` and `Semanal.SemanaSinRelleno` pin the as-written behaviour down.
- **No range checks.** Neither script enforces non-negative counters; only the form widgets' `min_value` hints at them. app.py refuses an empty office name: its login rejects a blank name, and `guardar_registro` refuses an empty session user (`Registros.HaySesion`). app1.py accepts an empty user name at login, and the page then stays on the login form (`Semanal.LoginVacio`). The model adds no other checks.
- **Text order of summary rows.** pandas orders summary rows by the `fecha` text, so `DD-MM-YYYY` rows are not in calendar order (`Resumen.OrdenTextual`).
- **An office named "Todas".** Such an office cannot be isolated by the administrator's filter: choosing it shows all offices (`Resumen.OficinaTodas`).

## Model

| member | source | states |
|---|---|---|
| `Text.Strip` | app.py:60 | `strip()` leaves no whitespace at either end; the result is empty exactly when the line is all whitespace; stripping adds no comma or line break |
| `Text.StripRemovesOnlySpace` | app.py:60 | only whitespace is removed: the stripped line is an infix of the line, after its leading whitespace, followed by whitespace only |
| `Text.StripIdempotent` | app.py:60 | stripping twice is stripping once |
| `Text.CommasToNewlines` | app.py:59 | `replace(",", "\n")` keeps the length, leaves no comma, and changes nothing in comma-free text |
| `Text.CommasToNewlinesAt` | app.py:59 | position by position, a comma becomes "\n" and every other character stays |
| `Text.CommasToNewlinesAppend` | app.py:59 | the replacement distributes over concatenation |
| `Text.SplitLinesCrLf` | app.py:60 | "\r\n" is a single boundary: "a\r\nb" splits into two lines |
| `Text.SplitLinesBlankLine` | app.py:60 | "\n\r" and "\n\n" are two boundaries each, with an empty line between them |
| `Text.SplitLinesTrailing` | app.py:60 | a final terminator opens no empty last line: "a\n" is one line |
| `Text.SplitLinesLoneBreak` | app.py:60 | "\n" alone is one empty line |
| `Text.SplitLinesClean` | app.py:60 | no line returned by `splitlines()` holds a line break, and lines of comma-free text hold no comma |
| `Text.SplitJoinLines` | app.py:60 | `splitlines()` undoes joining with "\n" when no line holds a break and the last line is not empty |
| `Text.PiecesAppend` | app.py:59-60 | cutting `a`, a separator character, then `b` at every separator gives the pieces of `a` followed by the pieces of `b` |
| `Consultantes.Parse` | app.py:51-61 | `None` or empty text gives no entries; every entry is non-empty, stripped, and has no comma and no line break |
| `Consultantes.CleanSplitLines` | app.py:60 | after dropping blank lines, `splitlines()` and cutting at every break character give the same entries |
| `Consultantes.ParseSeparator` | app.py:59-60 | entries keep their input order: the text before a comma or any line break gives its entries first, then the text after it |
| `Consultantes.CommaIsNewline` | app.py:59 | a comma and a newline between the same texts give the same entries |
| `Consultantes.ParseSingle` | app.py:60 | a text without separators gives one entry, its stripped self, unless it is blank |
| `Consultantes.ParseEntry` | app.py:60 | a clean entry parses to itself |
| `Consultantes.ParseJoin` | app.py:59-60 | clean entries joined with "\n" parse back to the same list |
| `Consultantes.ParseIdempotent` | app.py:51-61 | re-parsing the entries joined with "\n" gives the same entries |
| `Consultantes.ParsePair` | app.py:59-60 | an entry, a separator and one more stripped entry give exactly those two entries |
| `Consultantes.ExampleLines` | app.py:374 | the two example lines of the form's placeholder, "Juan - 3123123" and "María - 987654" on separate lines, give exactly those two entries |
| `Consultantes.ExampleCommas` | app.py:374 | the placeholder's comma example, "juan, maria", gives "juan" and "maria" |
| `Numerals.Decimal` | app1.py:85 | `str(n)` is a non-empty digit string without a leading zero whose value is `n` |
| `Numerals.DecimalValueOf` | app1.py:85 | every digit string without a superfluous leading zero is `str` of its value |
| `Numerals.DecimalInjective` | app1.py:85 | different numbers print differently |
| `Numerals.Padded` | app.py:108 | a zero-padded field has exactly its width, only digits, and denotes the number |
| `Numerals.PaddedValueOf` | app.py:108 | every digit string is the padded form of its value at its own width |
| `Calendar.DaysBeforeYearNext` | app1.py:83 | consecutive year starts are 365 or 366 days apart, following the leap-year rule |
| `Calendar.OrdinalInYear` | app1.py:83 | a valid date's ordinal lies inside its own year |
| `Calendar.Week1Monday` | app1.py:83 | the Monday of ISO week 1 is the Monday of the week that holds the year's first Thursday |
| `Calendar.IsoCalendarIsIso` | app1.py:83 | `isocalendar()` returns the ISO week date of the day: correct weekday; the ISO year is the one that holds the Thursday of the day's Monday-to-Sunday week, and the week number counts that year's Thursdays up to it |
| `Calendar.IsoWeekDateUnique` | app1.py:83 | a day has only one ISO week date |
| `Calendar.IsoCalendarRange` | app1.py:83 | the ISO week is between 1 and 53, the weekday between 1 and 7, and the ISO year is within one of the calendar year |
| `Calendar.IsoCalendarNewYearsEve` | app1.py:83 | 2024-12-31 is ISO 2025, week 1, Tuesday |
| `Calendar.IsoCalendarNewYearsDay` | app1.py:83 | 2023-01-01 is ISO 2022, week 52, Sunday |
| `Calendar.IsoCalendarFebruary` | app1.py:83 | 2024-02-01 is ISO 2024, week 5, Thursday |
| `Calendar.FormatFecha` | app.py:108 | `strftime("%d-%m-%Y")` has 10 characters, digits everywhere except "-" at positions 2 and 5 |
| `Calendar.ParseFormatFecha` | app.py:108 | the `fecha` text can be read back into the same date |
| `Calendar.FormatParseFecha` | app.py:108 | every text that reads as a valid date is that date's `fecha` text |
| `Calendar.FormatFechaInjective` | app.py:108 | two different dates never share a `fecha` text |
| `Registros.IdDe` | app.py:141-145 | an id is taken exactly when the insert returned a non-empty list of rows, and it is the first returned row's id |
| `Registros.Coerce` | app.py:111-119 | coercion succeeds exactly when all five conversions do; an unset value becomes 0 or 0.0; a set value becomes its conversion |
| `Registros.NuevoRegistro` | app.py:107-130 | the record's `oficina` is the session user, its counters are the coerced values, and its `fecha` is today's date as 10 characters with "-" at 2 and 5 that read back as today |
| `Registros.Payload` | app.py:150 | one visitor row per entry, in the same order, each tagged with the record id |
| `Registros.PayloadDetalles` | app.py:150 | the visitor rows' `detalle` column is the entry list itself, and all of them belong to the record |
| `Registros.GuardarVisitantes` | app.py:147-158 | once the id is known the outcome is "saved"; visitors are inserted exactly when there are entries, as the payload for that id |
| `Registros.GuardarRegistro` | app.py:100-162 | see the list below the table |
| `Registros.VisitantesNoDeshacen` | app.py:151-158 | a failing visitor insert does not undo the record: the outcome is still "saved", with a visitor error exactly when there were entries and their insert raised |
| `Ordering.LessIrreflexive` | app.py:260 | no string sorts before itself |
| `Ordering.LessTransitive` | app.py:260 | string order is transitive |
| `Ordering.LessTotal` | app.py:260 | any two different strings are ordered |
| `Ordering.LessAsymmetric` | app.py:260 | string order is asymmetric |
| `Ordering.Insert` | app.py:260 | inserting into a strictly sorted list keeps it strictly sorted and adds exactly the new element |
| `Ordering.SortedUnique` | app.py:260 | `sorted(set(xs))` is strictly increasing and has exactly the elements of `xs` |
| `Ordering.SortedDetermined` | app.py:260 | two strictly sorted lists with the same elements are equal |
| `Ordering.SortedUniqueSameElements` | app.py:260 | the office list depends only on which offices occur, not on their order or repetition |
| `Resumen.AgruparCorrecto` | app.py:198-204 | the group-by has exactly the days that occur, and each day holds the column sums of exactly that day's records |
| `Resumen.ResumenPorDiaCorrecto` | app.py:198-205 | one row per distinct day, strictly ordered by the `fecha` text; each row holds the sums of that day's records; `ganancia` is half of `canto` |
| `Resumen.ResumenFilas` | app.py:198-205 | row `i` is the `i`-th distinct day in sorted order, with that day's sums |
| `Resumen.SumaDiasTodo` | app.py:211-216 | summing per-day sums over distinct days that cover every record gives the sum over all records |
| `Resumen.TotalGananciaMitad` | app.py:216 | the total `ganancia` is half of the total `canto` |
| `Resumen.Conservacion` | app.py:211-216 | the grand totals over the summary rows equal the direct column sums over all records; total `ganancia` is half the total `canto` |
| `Resumen.OrdenTextual` | app.py:198 | "01-02-2025" comes before "02-01-2025": rows are sorted as text, not by date |
| `Resumen.OpcionesOficina` | app.py:260 | the selector is "Todas" followed by the distinct offices, strictly sorted, and no others |
| `Resumen.FiltrarOficina` | app.py:263-264 | "Todas" keeps every row; any other choice keeps only rows of that office |
| `Resumen.DeLaOficina` | app.py:169 | the office dashboard's query returns only rows of the session's office |
| `Resumen.DeLaOficinaCorrecta` | app.py:169 | an office reads a row exactly when it is in the table and is that office's |
| `Resumen.FiltrarOficinaCorrecto` | app.py:263-264 | choosing an office keeps exactly its rows, in their order |
| `Resumen.OficinaTodas` | app.py:260-264 | an office literally named "Todas" is listed, but choosing it shows other offices' rows too, unlike that office's own dashboard query |
| `Detalles.AgruparDetallesCorrecto` | app.py:321-324 | each record's details come out in the order the rows are read; a record without visitors gets the empty list and has no key |
| `Detalles.GuardadoSeLee` | app.py:321-336 | the details saved under a fresh id read back as exactly the parsed entries, and other records' details do not change |
| `Semanal.Login` | app1.py:55-62 | the session is admin exactly when the password equals the admin password; the typed name is kept in both branches |
| `Semanal.LoginVacio` | app1.py:49-64 | an empty name is accepted, but the page never goes past the login form with it |
| `Semanal.LeerClaveSemana` | app1.py:85 | the key reads back as exactly its year and week |
| `Semanal.ClaveLeida` | app1.py:85 | every text that reads as a key is the key of what it reads |
| `Semanal.SemanaDeCorrecta` | app1.py:83-85 | the key's year is the date's calendar year and its week is the ISO week, between 1 and 53 |
| `Semanal.SemanaFinDeAnio` | app1.py:83-85 | 2024-12-31 belongs to ISO year 2025, but its key is "2024-W1" |
| `Semanal.SemanaInicioDeAnio` | app1.py:83-85 | 2023-01-01 belongs to ISO year 2022, but its key is "2023-W52" |
| `Semanal.SemanaSinRelleno` | app1.py:83-85 | the week is not padded: 2024-02-01 gives "2024-W5" |
| `Semanal.Registrar` | app1.py:92-99 | the submitted row carries the session user as `oficina`, the computed week key as `semana`, and the given counters and timestamp |
| `Semanal.Visibles` | app1.py:108-111 | an admin reads every row; anyone else reads only rows of their own office |
| `Semanal.VisiblesOficina` | app1.py:108-111 | a non-admin session reads exactly its own rows, none missing |
| `Semanal.LeeLoQueGuarda` | app1.py:91-111 | a row a session submits is among the rows it reads back, admin or not |

`Registros.GuardarRegistro` states these properties:
- Without a session user, nothing is inserted.
- If any coercion fails, nothing is inserted.
- Otherwise the first and only guaranteed insert is the record built from the coerced values.
- The outcome is "saved" exactly when that insert returned rows, and the id is the first row's id.
- If that insert raises, the outcome is `ErrorRegistro`, the outer `except` at app.py:160-162.
- If that insert answers with no rows, the outcome is `SinDatos`, the early return at app.py:141-143.
- At most two inserts are made. The second one, the visitor payload for that id, comes only after an id exists and only when there are entries.

## Left out

- The Streamlit UI is not modelled: layout, CSS, `metric_card`, debug `st.write`/`st.json` output, the Plotly chart, `st.rerun`, logout and the page routing in `main()` (app.py:349-393).
- The Supabase client and its response objects are not modelled. The store is the pair of insert functions described above. The reads (`select`) are sequences of rows given as arguments.
- The `order("fecha_registro", desc=True)` ordering of reads is left out. The database assigns `fecha_registro`, and nothing shown depends on that order except the display of rows.
- The pandas merge and the `" | ".join` column of the tables (app.py:188-194, 252-258) are not modelled. They only change how the details are displayed, and `Detalles` models the grouping they rest on.
- app.py's `login()` (app.py:74-95) is not part of this model. The role logic modelled is app1.py's.
- File I/O for the background image and its base64 encoding (app1.py:19-38) are left out.
- Secrets are not read. `ADMIN_PASSWORD` is a parameter.
- `canto` is a `real` rather than an IEEE float, so sums and `canto / 2` are exact.
- The `:,.0f` currency formatting of the metric cards is not modelled.
- `int()`/`float()` string parsing is not modelled. Coercion is a partial function given as a parameter.
- `date.today()` and `datetime.now().isoformat()` are arguments, not clock reads.
- Semanal.SemanaDe: takes one `today` for both clock reads of app1.py (`date.today().isocalendar()` at line 83, `date.today().year` at line 84). A save that crosses midnight from 2023-12-31 (ISO week 52) to 2024-01-01 would write `2024-W52`, which no single date gives. The model does not cover that case.
- Detalles.GuardadoSeLee: the `select("*")` of `consultantes` (app.py:318) has no `order`. The lemma assumes the store lists rows in insertion order, with the rows just saved after the older ones. The model does not cover any other order the store might return.
- `Calendar.FormatFecha`: `%Y` is modelled as four zero-padded digits. Some platforms' `strftime` do not pad years below 1000.
