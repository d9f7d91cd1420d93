/**
 * `FormsService` over an in-memory table of contact forms: listing,
 * filtering by colonia and municipio newest first, the attended/unattended
 * statistics and the six largest groups by municipio or estado. Every
 * operation receives the outcome of its database read; a read that throws
 * is rethrown as an RPC error with the operation's default message.
 */
module FormsService {
  import opened Wrappers
  import opened JsText
  import opened Ordering
  import opened ContactForms
  import opened ServiceErrors
  import FilterFormsDto

  /** The outcome of a database read: rows, or what the driver threw. */
  type Read<T> = Result<T, Thrown>

  const CreateMessage := "Error al guardar el formulario de contacto"
  const FindAllMessage := "Error al obtener los formularios de contacto"
  const FilterMessage := "Error al filtrar los formularios"
  const StatsMessage := "Error al obtener estadísticas"
  const TopMessage := "Error al obtener top municipios"

  /** `create`: the saved form in its response shape, or the repository's
      error, normalised. The service's private `mapToResponseDto` copies the
      same sixteen fields as the mapper's `toResponseDto`, so both are
      `ToResponseDto` here. */
  function Create(saved: Read<ContactForm>): (r: Result<FormResponseDto, RpcError>)
    ensures saved.Success? ==> r.Success? && FormOf(r.value) == saved.value
    ensures saved.Failure? ==> r == Failure(Normalize(saved.error, CreateMessage))
  {
    match saved
    case Success(form) => Success(ToResponseDto(form))
    case Failure(e) => Failure(Normalize(e, CreateMessage))
  }

  /** `findAll`: every form, in the repository's order, in response shape. */
  function FindAll(table: Read<seq<ContactForm>>): (r: Result<seq<FormResponseDto>, RpcError>)
    ensures table.Success? ==>
      (r.Success? && |r.value| == |table.value| &&
       forall i | 0 <= i < |table.value| :: FormOf(r.value[i]) == table.value[i])
    ensures table.Failure? ==> r == Failure(Normalize(table.error, FindAllMessage))
  {
    match table
    case Success(rows) => Success(ToResponseDtos(rows))
    case Failure(e) => Failure(Normalize(e, FindAllMessage))
  }

  // ---------------------------------------------------------------------
  // filterForms
  // ---------------------------------------------------------------------

  /** `if (filterDto.x)`: a filter applies when it is present and non-empty. */
  predicate Applies(o: Option<string>) {
    o.Some? && o.value != []
  }

  /** The `andWhere` conditions the query builder collects. */
  predicate Matches(form: ContactForm, dto: FilterFormsDto.FilterForms) {
    (Applies(dto.colonia) ==> form.colonia == dto.colonia.value) &&
    (Applies(dto.municipio) ==> form.municipio == dto.municipio.value)
  }

  /** The matching rows, in table order, each as often as in the table. */
  function Where(rows: seq<ContactForm>, dto: FilterFormsDto.FilterForms): (r: seq<ContactForm>)
    ensures forall f :: multiset(r)[f] == if Matches(f, dto) then multiset(rows)[f] else 0
  {
    if rows == [] then []
    else
      var tail := Where(rows[1..], dto);
      assert rows == [rows[0]] + rows[1..];
      if Matches(rows[0], dto) then [rows[0]] + tail else tail
  }

  function CreatedAt(form: ContactForm): int {
    form.createdAt
  }

  /** The rows `getMany` returns: matching rows, newest first. */
  function FilterRows(rows: seq<ContactForm>, dto: FilterFormsDto.FilterForms): seq<ContactForm> {
    SortDesc(Where(rows, dto), CreatedAt)
  }

  /** `filterForms`: the filtered rows in response shape, or the error. */
  function FilterForms(table: Read<seq<ContactForm>>, dto: FilterFormsDto.FilterForms): (r: Result<seq<FormResponseDto>, RpcError>)
    ensures table.Success? ==>
      (r.Success? && |r.value| == |FilterRows(table.value, dto)| &&
       forall i | 0 <= i < |r.value| :: FormOf(r.value[i]) == FilterRows(table.value, dto)[i])
    ensures table.Failure? ==> r == Failure(Normalize(table.error, FilterMessage))
  {
    match table
    case Success(rows) => Success(ToResponseDtos(FilterRows(rows, dto)))
    case Failure(e) => Failure(Normalize(e, FilterMessage))
  }

  /** The filtered rows are exactly the matching rows of the table (each as
      often as there), every result satisfies every filter given, and the
      newest come first. */
  lemma FilterRowsSpec(rows: seq<ContactForm>, dto: FilterFormsDto.FilterForms)
    ensures var out := FilterRows(rows, dto);
      (forall f :: multiset(out)[f] == if Matches(f, dto) then multiset(rows)[f] else 0) &&
      (forall i | 0 <= i < |out| :: Matches(out[i], dto)) &&
      (forall i, j | 0 <= i < j < |out| :: out[i].createdAt >= out[j].createdAt)
  {
    var out := FilterRows(rows, dto);
    forall i | 0 <= i < |out| ensures Matches(out[i], dto) {
      assert out[i] in multiset(out);
    }
    forall i, j | 0 <= i < j < |out| ensures out[i].createdAt >= out[j].createdAt {
      assert CreatedAt(out[i]) >= CreatedAt(out[j]);
    }
  }

  /** Without a filter (absent or empty values), every row is returned. */
  lemma NoFilterKeepsAll(rows: seq<ContactForm>, dto: FilterFormsDto.FilterForms)
    requires !Applies(dto.colonia) && !Applies(dto.municipio)
    ensures multiset(FilterRows(rows, dto)) == multiset(rows)
  {
    var out := FilterRows(rows, dto);
    assert forall f :: multiset(out)[f] == multiset(rows)[f];
  }

  // ---------------------------------------------------------------------
  // getStats
  // ---------------------------------------------------------------------

  /** `count({ where: { atendido: true } })`. */
  function CountAttended(rows: seq<ContactForm>): (n: nat)
    ensures n <= |rows|
  {
    if rows == [] then 0
    else (if rows[0].atendido then 1 else 0) + CountAttended(rows[1..])
  }

  function CountUnattended(rows: seq<ContactForm>): nat {
    if rows == [] then 0
    else (if rows[0].atendido then 0 else 1) + CountUnattended(rows[1..])
  }

  /** Every row is attended or not. */
  lemma {:induction false} CountsAddUp(rows: seq<ContactForm>)
    ensures CountAttended(rows) + CountUnattended(rows) == |rows|
  {
    if rows != [] {
      CountsAddUp(rows[1..]);
    }
  }

  /** `getStats`, with both counts taken on the same table. */
  function GetStats(table: Read<seq<ContactForm>>): (r: Result<StatsResponseDto, RpcError>)
    ensures table.Failure? ==> r == Failure(Normalize(table.error, StatsMessage))
  {
    match table
    case Success(rows) => Success(StatsResponseDto(|rows|, CountAttended(rows), |rows| - CountAttended(rows)))
    case Failure(e) => Failure(Normalize(e, StatsMessage))
  }

  /** The unattended figure is the number of rows not attended, so it is
      never negative, and the three figures add up. */
  lemma StatsSpec(rows: seq<ContactForm>)
    ensures GetStats(Success(rows)).Success?
    ensures var s := GetStats(Success(rows)).value;
      s.totalRegistros == |rows| && s.registrosAtendidos == CountAttended(rows) &&
      s.registrosNoAtendidos == CountUnattended(rows) && s.registrosNoAtendidos >= 0 &&
      s.registrosAtendidos + s.registrosNoAtendidos == s.totalRegistros
  {
    CountsAddUp(rows);
  }

  // ---------------------------------------------------------------------
  // getTopMunicipalities and getTopStates
  // ---------------------------------------------------------------------

  /** `LIMIT 6`. */
  const TopLimit := 6

  /** The column a `GROUP BY` uses. */
  datatype GroupBy = ByMunicipio | ByEstado

  function KeyOf(col: GroupBy, form: ContactForm): string {
    match col
    case ByMunicipio => form.municipio
    case ByEstado => form.estado
  }

  /** Some row of the table has `k` in the grouped column. */
  predicate Present(rows: seq<ContactForm>, col: GroupBy, k: string) {
    exists i | 0 <= i < |rows| :: KeyOf(col, rows[i]) == k
  }

  /** `COUNT(*)` of the group of `k`. */
  function Count(rows: seq<ContactForm>, col: GroupBy, k: string): (n: nat)
    ensures n <= |rows|
    ensures n > 0 <==> Present(rows, col, k)
  {
    if rows == [] then 0
    else
      var n := Count(rows[1..], col, k);
      assert forall i | 1 <= i < |rows| :: rows[1..][i - 1] == rows[i];
      (if KeyOf(col, rows[0]) == k then 1 else 0) + n
  }

  predicate NoDup<T(==)>(s: seq<T>) {
    forall i, j | 0 <= i < j < |s| :: s[i] != s[j]
  }

  /** The distinct values of the grouped column, one per group. */
  function DistinctKeys(rows: seq<ContactForm>, col: GroupBy): (ks: seq<string>)
    ensures NoDup(ks)
    ensures forall k :: k in ks <==> Present(rows, col, k)
  {
    if rows == [] then []
    else
      var rest := DistinctKeys(rows[1..], col);
      assert forall k :: Present(rows, col, k) <==> k == KeyOf(col, rows[0]) || Present(rows[1..], col, k) by {
        assert forall i | 1 <= i < |rows| :: rows[1..][i - 1] == rows[i];
      }
      if KeyOf(col, rows[0]) in rest then rest else [KeyOf(col, rows[0])] + rest
  }

  /** One row of the grouped query, its count still a number. */
  datatype Group = Group(key: string, count: nat)

  function GroupCount(g: Group): int {
    g.count
  }

  /** A group with its exact count. */
  predicate Exact(rows: seq<ContactForm>, col: GroupBy, g: Group) {
    Present(rows, col, g.key) && g.count == Count(rows, col, g.key)
  }

  function GroupsOf(ks: seq<string>, rows: seq<ContactForm>, col: GroupBy): (gs: seq<Group>)
    ensures |gs| == |ks|
    ensures forall i | 0 <= i < |ks| :: gs[i] == Group(ks[i], Count(rows, col, ks[i]))
  {
    if ks == [] then [] else [Group(ks[0], Count(rows, col, ks[0]))] + GroupsOf(ks[1..], rows, col)
  }

  /** `GROUP BY`: one exact group per distinct value. */
  function Groups(rows: seq<ContactForm>, col: GroupBy): (gs: seq<Group>)
    ensures NoDup(gs)
    ensures forall g :: g in gs <==> Exact(rows, col, g)
  {
    var ks := DistinctKeys(rows, col);
    var gs := GroupsOf(ks, rows, col);
    assert forall g :: g in gs <==> Exact(rows, col, g) by {
      forall g ensures g in gs <==> Exact(rows, col, g) {
        if Exact(rows, col, g) {
          assert g.key in ks;
          var i :| 0 <= i < |ks| && ks[i] == g.key;
          assert gs[i] == g;
        }
      }
    }
    gs
  }

  /** The first `TopLimit` elements (all of them when there are fewer). */
  function Top<T>(s: seq<T>): (r: seq<T>)
    ensures |r| == if |s| <= TopLimit then |s| else TopLimit
    ensures forall i | 0 <= i < |r| :: r[i] == s[i]
  {
    if |s| <= TopLimit then s else s[..TopLimit]
  }

  /** `GROUP BY … ORDER BY total DESC LIMIT 6`. */
  function TopGroups(rows: seq<ContactForm>, col: GroupBy): seq<Group> {
    Top(SortDesc(Groups(rows, col), GroupCount))
  }

  /** A sequence without repetitions holds each value at most once. */
  lemma {:induction false} NoDupMultiplicity<T>(s: seq<T>, x: T)
    requires NoDup(s)
    ensures multiset(s)[x] <= 1
  {
    if s != [] {
      assert s == [s[0]] + s[1..];
      assert NoDup(s[1..]) by {
        forall i, j | 0 <= i < j < |s| - 1 ensures s[1..][i] != s[1..][j] {
          assert s[1..][i] == s[i + 1] && s[1..][j] == s[j + 1];
        }
      }
      NoDupMultiplicity(s[1..], x);
      if s[0] == x {
        assert x !in s[1..];
      }
    }
  }

  /** A reordering of a sequence without repetitions has none either. */
  lemma NoDupPermutation<T>(a: seq<T>, b: seq<T>)
    requires NoDup(a) && multiset(a) == multiset(b)
    ensures NoDup(b)
  {
    forall i, j | 0 <= i < j < |b| ensures b[i] != b[j] {
      if b[i] == b[j] {
        var x := b[i];
        assert b == b[..j] + [x] + b[j + 1..];
        assert x in b[..j];
        assert multiset(b)[x] >= 2;
        NoDupMultiplicity(a, x);
      }
    }
  }

  /** What the top-six query promises, whatever order it gives to ties: at
      most six groups (fewer only when there are fewer distinct values), each
      a distinct value present in the table with its exact count, the
      largest first, and no value left out counting more than one kept. */
  ghost predicate IsTop(out: seq<Group>, rows: seq<ContactForm>, col: GroupBy) {
    var n := |DistinctKeys(rows, col)|;
    |out| == (if n <= TopLimit then n else TopLimit) &&
    (forall i | 0 <= i < |out| :: Exact(rows, col, out[i])) &&
    (forall i, j | 0 <= i < j < |out| :: out[i].key != out[j].key) &&
    (forall i, j | 0 <= i < j < |out| :: out[i].count >= out[j].count) &&
    (forall k, i | Present(rows, col, k) && 0 <= i < |out| && (forall j | 0 <= j < |out| :: out[j].key != k) ::
       Count(rows, col, k) <= out[i].count)
  }

  /** Every group of the table exactly once, the largest first. */
  ghost predicate Ranked(s: seq<Group>, rows: seq<ContactForm>, col: GroupBy) {
    |s| == |DistinctKeys(rows, col)| && NoDup(s) && SortedDesc(s, GroupCount) &&
    (forall i | 0 <= i < |s| :: Exact(rows, col, s[i])) &&
    (forall g | Exact(rows, col, g) :: g in s)
  }

  /** Sorting the groups ranks them. */
  lemma SortedGroupsRanked(rows: seq<ContactForm>, col: GroupBy)
    ensures Ranked(SortDesc(Groups(rows, col), GroupCount), rows, col)
  {
    var gs := Groups(rows, col);
    var sorted := SortDesc(gs, GroupCount);
    NoDupPermutation(gs, sorted);
    forall i | 0 <= i < |sorted| ensures Exact(rows, col, sorted[i]) {
      assert sorted[i] in multiset(gs);
    }
    forall g | Exact(rows, col, g) ensures g in sorted {
      assert g in multiset(gs);
    }
  }

  /** The first six ranked groups are the top groups. */
  lemma RankedTop(s: seq<Group>, rows: seq<ContactForm>, col: GroupBy)
    requires Ranked(s, rows, col)
    ensures IsTop(Top(s), rows, col)
  {
    var out := Top(s);
    forall i, j | 0 <= i < j < |out| ensures out[i].key != out[j].key {
      assert out[i] == s[i] && out[j] == s[j];
    }
    forall i, j | 0 <= i < j < |out| ensures out[i].count >= out[j].count {
      assert GroupCount(s[i]) >= GroupCount(s[j]);
    }
    forall k, i | Present(rows, col, k) && 0 <= i < |out| && (forall j | 0 <= j < |out| :: out[j].key != k)
      ensures Count(rows, col, k) <= out[i].count
    {
      var g := Group(k, Count(rows, col, k));
      assert g in s;
      var p :| 0 <= p < |s| && s[p] == g;
      assert p >= |out|;
      assert GroupCount(s[i]) >= GroupCount(s[p]);
    }
  }

  /** The groups the service reads are the top groups of the table. */
  lemma TopGroupsSpec(rows: seq<ContactForm>, col: GroupBy)
    ensures IsTop(TopGroups(rows, col), rows, col)
  {
    SortedGroupsRanked(rows, col);
    RankedTop(SortDesc(Groups(rows, col), GroupCount), rows, col);
  }

  /** The raw row the driver returns for a group, its count as text. */
  function MunicipalityRowOf(g: Group): MunicipalityRow {
    MunicipalityRow(g.key, ShowNat(g.count))
  }

  function StateRowOf(g: Group): StateRow {
    StateRow(g.key, ShowNat(g.count))
  }

  /** `getTopMunicipalities`: the top groups by municipio, each count read
      back with `parseInt`, so each count is the group's own. */
  function GetTopMunicipalities(table: Read<seq<ContactForm>>): (r: Result<seq<TopMunicipalityDto>, RpcError>)
    ensures table.Success? ==>
      (r.Success? && |r.value| == |TopGroups(table.value, ByMunicipio)| &&
       forall i | 0 <= i < |r.value| ::
         var g := TopGroups(table.value, ByMunicipio)[i];
         r.value[i] == TopMunicipalityDto(g.key, Int(g.count)))
    ensures table.Failure? ==> r == Failure(Normalize(table.error, TopMessage))
  {
    match table
    case Success(rows) =>
      var raw := Map(MunicipalityRowOf, TopGroups(rows, ByMunicipio));
      var dtos := Map(ToTopMunicipalityDto, raw);
      assert forall i | 0 <= i < |dtos| :: dtos[i] == TopMunicipalityDto(raw[i].municipio, Int(TopGroups(rows, ByMunicipio)[i].count)) by {
        forall i | 0 <= i < |dtos| ensures dtos[i] == TopMunicipalityDto(raw[i].municipio, Int(TopGroups(rows, ByMunicipio)[i].count)) {
          ParseShowNat(TopGroups(rows, ByMunicipio)[i].count);
        }
      }
      Success(dtos)
    case Failure(e) => Failure(Normalize(e, TopMessage))
  }

  /** `getTopStates` groups by estado but answers with the municipio-keyed
      shape: the state's name under `municipio`, and the municipalities'
      error message. */
  function GetTopStates(table: Read<seq<ContactForm>>): (r: Result<seq<TopMunicipalityDto>, RpcError>)
    ensures table.Success? ==>
      (r.Success? && |r.value| == |TopGroups(table.value, ByEstado)| &&
       forall i | 0 <= i < |r.value| ::
         var g := TopGroups(table.value, ByEstado)[i];
         r.value[i] == TopMunicipalityDto(g.key, Int(g.count)))
    ensures table.Failure? ==> r == Failure(Normalize(table.error, TopMessage))
  {
    match table
    case Success(rows) =>
      var raw := Map(StateRowOf, TopGroups(rows, ByEstado));
      var dtos := Map((row: StateRow) => TopMunicipalityDto(row.estado, ParseInt(row.total)), raw);
      assert forall i | 0 <= i < |dtos| :: dtos[i] == TopMunicipalityDto(raw[i].estado, Int(TopGroups(rows, ByEstado)[i].count)) by {
        forall i | 0 <= i < |dtos| ensures dtos[i] == TopMunicipalityDto(raw[i].estado, Int(TopGroups(rows, ByEstado)[i].count)) {
          ParseShowNat(TopGroups(rows, ByEstado)[i].count);
        }
      }
      Success(dtos)
    case Failure(e) => Failure(Normalize(e, TopMessage))
  }
}
