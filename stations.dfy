/**
 * The cleaned table read as station records: each row gives one price
 * observation, with the fields the dashboard reads by label.
 */
module Stations {
  import opened Wrappers
  import opened Frames
  import opened Decimals

  /** One fuel-station price observation, as far as the dashboard reads it. */
  datatype Station = Station(
    estado: string,
    municipio: string,
    rua: string,
    numero: string,
    bairro: string,
    cep: string,
    produto: string,
    preco: real)

  /** Reading a label fails when it is absent or holds the wrong kind of cell. */
  datatype FieldError = NoSuchColumn(name: string) | WrongKind(name: string)

  /** The labels the dashboard reads once the table is cleaned. */
  const EstadoLabel: string := "Estado"
  const MunicipioLabel: string := "Municipio"
  const RuaLabel: string := "Nome da Rua"
  const NumeroLabel: string := "Numero Rua"
  const BairroLabel: string := "Bairro"
  const CepLabel: string := "Cep"
  const ProdutoLabel: string := "Produto"

  /** The row reads `st` under every label the dashboard uses. */
  predicate Reads(columns: seq<string>, row: seq<Cell>, st: Station)
    requires |row| == |columns|
  {
    && Lookup(columns, row, EstadoLabel) == Some(Str(st.estado))
    && Lookup(columns, row, MunicipioLabel) == Some(Str(st.municipio))
    && Lookup(columns, row, RuaLabel) == Some(Str(st.rua))
    && Lookup(columns, row, NumeroLabel) == Some(Str(st.numero))
    && Lookup(columns, row, BairroLabel) == Some(Str(st.bairro))
    && Lookup(columns, row, CepLabel) == Some(Str(st.cep))
    && Lookup(columns, row, ProdutoLabel) == Some(Str(st.produto))
    && Lookup(columns, row, SalePrice) == Some(Num(st.preco))
  }

  function TextField(columns: seq<string>, row: seq<Cell>, name: string): (r: Result<string, FieldError>)
    requires |row| == |columns|
    ensures r.Ok? ==> Lookup(columns, row, name) == Some(Str(r.value))
    ensures (exists s :: Lookup(columns, row, name) == Some(Str(s))) ==> r.Ok?
  {
    match Lookup(columns, row, name)
    case None => Err(NoSuchColumn(name))
    case Some(c) => if c.Str? then Ok(c.s) else Err(WrongKind(name))
  }

  function NumberField(columns: seq<string>, row: seq<Cell>, name: string): (r: Result<real, FieldError>)
    requires |row| == |columns|
    ensures r.Ok? ==> Lookup(columns, row, name) == Some(Num(r.value))
    ensures (exists x :: Lookup(columns, row, name) == Some(Num(x))) ==> r.Ok?
  {
    match Lookup(columns, row, name)
    case None => Err(NoSuchColumn(name))
    case Some(c) => if c.Num? then Ok(c.x) else Err(WrongKind(name))
  }

  /** The station a row describes; it exists exactly when the row can be read. */
  function StationOf(columns: seq<string>, row: seq<Cell>): (r: Result<Station, FieldError>)
    requires |row| == |columns|
    ensures r.Ok? ==> Reads(columns, row, r.value)
    ensures (exists st :: Reads(columns, row, st)) ==> r.Ok?
  {
    var estado := TextField(columns, row, EstadoLabel);
    var municipio := TextField(columns, row, MunicipioLabel);
    var rua := TextField(columns, row, RuaLabel);
    var numero := TextField(columns, row, NumeroLabel);
    var bairro := TextField(columns, row, BairroLabel);
    var cep := TextField(columns, row, CepLabel);
    var produto := TextField(columns, row, ProdutoLabel);
    var preco := NumberField(columns, row, SalePrice);
    if estado.Err? then Err(estado.error)
    else if municipio.Err? then Err(municipio.error)
    else if rua.Err? then Err(rua.error)
    else if numero.Err? then Err(numero.error)
    else if bairro.Err? then Err(bairro.error)
    else if cep.Err? then Err(cep.error)
    else if produto.Err? then Err(produto.error)
    else if preco.Err? then Err(preco.error)
    else Ok(Station(estado.value, municipio.value, rua.value, numero.value,
                    bairro.value, cep.value, produto.value, preco.value))
  }

  /** All rows as stations, in table order; the first unreadable row fails. */
  function StationsOf(columns: seq<string>, rows: seq<seq<Cell>>): (r: Result<seq<Station>, FieldError>)
    requires forall k :: 0 <= k < |rows| ==> |rows[k]| == |columns|
    ensures r.Ok? <==> forall k :: 0 <= k < |rows| ==> StationOf(columns, rows[k]).Ok?
    ensures r.Ok? ==> |r.value| == |rows| &&
                      forall k :: 0 <= k < |rows| ==> Reads(columns, rows[k], r.value[k])
  {
    if rows == [] then Ok([])
    else
      match StationOf(columns, rows[0])
      case Err(e) => Err(e)
      case Ok(st) =>
        match StationsOf(columns, rows[1..])
        case Err(e) => Err(e)
        case Ok(rest) => Ok([st] + rest)
  }

  function Stations(t: Table): (r: Result<seq<Station>, FieldError>)
    requires WellFormed(t)
    ensures r.Ok? ==> |r.value| == |t.rows| &&
                      forall k :: 0 <= k < |t.rows| ==> Reads(t.columns, t.rows[k], r.value[k])
  {
    StationsOf(t.columns, t.rows)
  }

  /**
   * From the raw file to the records: after cleaning, a station's price is
   * the number its raw comma-decimal text denotes and its state is what the
   * raw file holds under "Estado - Sigla".
   */
  lemma CleanedStation(raw: Table, k: nat)
    requires WellFormed(raw) && CleanSpec(raw, SalePriceOf).Ok?
    requires "Estado" !in raw.columns && "Regiao" !in raw.columns
    requires Stations(CleanSpec(raw, SalePriceOf).value).Ok? && k < |raw.rows|
    ensures var st := Stations(CleanSpec(raw, SalePriceOf).value).value[k];
            && Lookup(raw.columns, raw.rows[k], SalePrice).Some?
            && SalePriceOf(Lookup(raw.columns, raw.rows[k], SalePrice).value) == Ok(st.preco)
            && Lookup(raw.columns, raw.rows[k], "Estado - Sigla") == Some(Str(st.estado))
            && forall d: Decimal :: Lookup(raw.columns, raw.rows[k], SalePrice) == Some(Str(Format(d, ','))) ==>
                                    st.preco == d.Value()
  {
    var t := CleanSpec(raw, SalePriceOf).value;
    var st := Stations(t).value[k];
    assert Reads(t.columns, t.rows[k], st);
    CleanSalePrice(raw, SalePriceOf, k);
    CleanRenamed(raw, SalePriceOf, k);
    forall d: Decimal | Lookup(raw.columns, raw.rows[k], SalePrice) == Some(Str(Format(d, ',')))
      ensures st.preco == d.Value()
    {
      SalePriceFormat(d);
    }
  }
}
