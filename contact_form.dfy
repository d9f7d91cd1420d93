/**
 * The contact form record, the shapes the service answers with, and the
 * mapper between them.
 */
module ContactForms {
  import opened Wrappers
  import opened JsText

  /** A stored contact form. Dates are instants in milliseconds. */
  datatype ContactForm = ContactForm(
    id: string,
    nombre: string,
    apellidos: string,
    numeroTelefono: string,
    email: string,
    calle: string,
    numeroExterior: string,
    codigoPostal: string,
    colonia: string,
    municipio: string,
    estado: string,
    comunidadPerteneciente: string,
    porQueMeInteresa: string,
    atendido: bool,
    createdAt: int,
    updatedAt: int)

  /** The response shape of one contact form. */
  datatype FormResponseDto = FormResponseDto(
    id: string,
    nombre: string,
    apellidos: string,
    numeroTelefono: string,
    email: string,
    calle: string,
    numeroExterior: string,
    codigoPostal: string,
    colonia: string,
    municipio: string,
    estado: string,
    comunidadPerteneciente: string,
    porQueMeInteresa: string,
    atendido: bool,
    createdAt: int,
    updatedAt: int)

  /** A raw `GROUP BY` row: the group's name and its `COUNT(*)` as text. */
  datatype MunicipalityRow = MunicipalityRow(municipio: string, total: string)
  datatype StateRow = StateRow(estado: string, total: string)

  datatype TopMunicipalityDto = TopMunicipalityDto(municipio: string, totalRegistros: Number)
  datatype TopStateDto = TopStateDto(estado: string, totalRegistros: Number)

  datatype StatsResponseDto = StatsResponseDto(
    totalRegistros: int,
    registrosAtendidos: int,
    registrosNoAtendidos: int)

  /** The text columns a client fills in, in the order of the request body. */
  datatype FormField =
    | Nombre | Apellidos | NumeroTelefono | Email | Calle | NumeroExterior
    | CodigoPostal | Colonia | Municipio | Estado | ComunidadPerteneciente
    | PorQueMeInteresa

  const AllFields: set<FormField> := {
    Nombre, Apellidos, NumeroTelefono, Email, Calle, NumeroExterior,
    CodigoPostal, Colonia, Municipio, Estado, ComunidadPerteneciente,
    PorQueMeInteresa }

  lemma AllFieldsComplete(f: FormField)
    ensures f in AllFields
  {
  }

  /** The property name of a field in the request body. */
  function Name(f: FormField): string {
    match f
    case Nombre => "nombre"
    case Apellidos => "apellidos"
    case NumeroTelefono => "numeroTelefono"
    case Email => "email"
    case Calle => "calle"
    case NumeroExterior => "numeroExterior"
    case CodigoPostal => "codigoPostal"
    case Colonia => "colonia"
    case Municipio => "municipio"
    case Estado => "estado"
    case ComunidadPerteneciente => "comunidadPerteneciente"
    case PorQueMeInteresa => "porQueMeInteresa"
  }

  /** The `varchar` length of the field's column; `None` for the `text` column. */
  function ColumnWidth(f: FormField): Option<nat> {
    match f
    case Nombre => Some(100)
    case Apellidos => Some(100)
    case NumeroTelefono => Some(20)
    case Email => Some(150)
    case Calle => Some(200)
    case NumeroExterior => Some(10)
    case CodigoPostal => Some(10)
    case Colonia => Some(100)
    case Municipio => Some(100)
    case Estado => Some(100)
    case ComunidadPerteneciente => Some(100)
    case PorQueMeInteresa => None
  }

  /** `toResponseDto`: every field copied unchanged. */
  function ToResponseDto(form: ContactForm): FormResponseDto {
    FormResponseDto(
      form.id, form.nombre, form.apellidos, form.numeroTelefono, form.email,
      form.calle, form.numeroExterior, form.codigoPostal, form.colonia,
      form.municipio, form.estado, form.comunidadPerteneciente,
      form.porQueMeInteresa, form.atendido, form.createdAt, form.updatedAt)
  }

  /** Reading a contact form back out of its response shape. */
  function FormOf(d: FormResponseDto): ContactForm {
    ContactForm(
      d.id, d.nombre, d.apellidos, d.numeroTelefono, d.email,
      d.calle, d.numeroExterior, d.codigoPostal, d.colonia,
      d.municipio, d.estado, d.comunidadPerteneciente,
      d.porQueMeInteresa, d.atendido, d.createdAt, d.updatedAt)
  }

  /** The response shape loses nothing: the form can be read back from it,
      so distinct forms give distinct responses. */
  lemma ResponseDtoRoundTrip(form: ContactForm, other: ContactForm)
    ensures FormOf(ToResponseDto(form)) == form
    ensures ToResponseDto(FormOf(ToResponseDto(form))) == ToResponseDto(form)
    ensures ToResponseDto(form) == ToResponseDto(other) ==> form == other
  {
  }

  /** `toResponseDtos`: `Array.prototype.map` of `toResponseDto`. */
  function ToResponseDtos(forms: seq<ContactForm>): (ds: seq<FormResponseDto>)
    ensures |ds| == |forms|
    ensures forall i | 0 <= i < |forms| :: FormOf(ds[i]) == forms[i]
  {
    Map(ToResponseDto, forms)
  }

  /** `toTopMunicipalityDto`: the name is kept and the count parsed. */
  function ToTopMunicipalityDto(row: MunicipalityRow): TopMunicipalityDto {
    TopMunicipalityDto(row.municipio, ParseInt(row.total))
  }

  function ToTopMunicipalityDtos(rows: seq<MunicipalityRow>): (ds: seq<TopMunicipalityDto>)
    ensures |ds| == |rows|
    ensures forall i | 0 <= i < |rows| :: ds[i] == ToTopMunicipalityDto(rows[i])
  {
    Map(ToTopMunicipalityDto, rows)
  }

  /** `toTopStateDto`: the name is kept and the count parsed. */
  function ToTopStateDto(row: StateRow): TopStateDto {
    TopStateDto(row.estado, ParseInt(row.total))
  }

  function ToTopStateDtos(rows: seq<StateRow>): (ds: seq<TopStateDto>)
    ensures |ds| == |rows|
    ensures forall i | 0 <= i < |rows| :: ds[i] == ToTopStateDto(rows[i])
  {
    Map(ToTopStateDto, rows)
  }

  /** A row whose total is a `COUNT(*)` rendered as text maps to that count,
      under the same name. */
  lemma TopMunicipalityCount(name: string, n: nat)
    ensures ToTopMunicipalityDto(MunicipalityRow(name, ShowNat(n))) == TopMunicipalityDto(name, Int(n))
  {
    ParseShowNat(n);
  }

  lemma TopStateCount(name: string, n: nat)
    ensures ToTopStateDto(StateRow(name, ShowNat(n))) == TopStateDto(name, Int(n))
  {
    ParseShowNat(n);
  }

  /** A total that is any non-empty digit string maps to its decimal value. */
  lemma TopCountsOfDigits(row: MunicipalityRow, srow: StateRow)
    requires row.total != [] && AllDigits(row.total)
    requires srow.total != [] && AllDigits(srow.total)
    ensures ToTopMunicipalityDto(row).totalRegistros == Int(DecimalValue(row.total))
    ensures ToTopStateDto(srow).totalRegistros == Int(DecimalValue(srow.total))
  {
    ParseIntDigits(row.total);
    ParseIntDigits(srow.total);
  }
}
