/**
 * The end of the script: the cheapest gasoline station of the municipality
 * chosen in the sidebar is geocoded once from its address, and its
 * coordinates go to the map. The geocoder is a parameter.
 */
module Dashboard {
  import opened Wrappers
  import opened Text
  import opened Stations
  import opened Selection
  import opened Pricing
  import opened Address

  /** Latitude and longitude, the first two components of the geocoded point. */
  datatype Point = Point(lat: real, lon: real)

  datatype DashboardError =
    | NoStation     // idxmin on an empty selection raises
    | NotGeocoded   // the geocoder returns None and `location.point` fails

  /** The fuel the script asks for. */
  const Fuel: string := "gasolina"

  /**
   * Lines 43 to 50 for the record the lookup returned: its address, one
   * geocoding call, and the point. There is no second candidate; a failed
   * lookup of the address ends the run.
   */
  function Geocoded(dados: Result<Station, LookupError>, geocode: string -> Option<Point>): (r: Result<Point, DashboardError>)
    ensures r == Err(NoStation) <==> dados.Err?
    ensures r.Ok? ==> dados.Ok? && geocode(EnderecoCompleto(dados.value)) == Some(r.value)
    ensures r == Err(NotGeocoded) <==> dados.Ok? && geocode(EnderecoCompleto(dados.value)).None?
  {
    match dados
    case Err(_) => Err(NoStation)
    case Ok(st) =>
      var endereco := EnderecoCompleto(st);
      match geocode(endereco)
      case None => Err(NotGeocoded)
      case Some(p) => Ok(p)
  }

  /**
   * Lines 40 to 50 as the script writes them: the `idxmin` record of the
   * municipality's gasoline rows over the whole table, whatever state was
   * chosen, is geocoded.
   */
  function LocateAsWritten(stations: seq<Station>, municipio: string, geocode: string -> Option<Point>): (r: Result<Point, DashboardError>)
    ensures r == Err(NoStation) <==> forall j :: 0 <= j < |stations| ==> !Matches(stations[j], municipio, Fuel)
    ensures r.Ok? ==> exists i :: && 0 <= i < |stations|
                                  && IsFirstMin(stations, |stations|, Query(None, municipio, Fuel), i)
                                  && geocode(EnderecoCompleto(stations[i])) == Some(r.value)
    ensures r == Err(NotGeocoded) ==> exists i :: && 0 <= i < |stations|
                                                 && IsFirstMin(stations, |stations|, Query(None, municipio, Fuel), i)
                                                 && geocode(EnderecoCompleto(stations[i])).None?
  {
    Geocoded(MenorPreco(stations, municipio, Fuel), geocode)
  }

  /**
   * The same with the corrected lookup (see `CrossStateLookup`): the
   * `idxmin` record among the municipality's gasoline rows of the chosen
   * state is geocoded.
   */
  function Locate(stations: seq<Station>, estado: string, municipio: string, geocode: string -> Option<Point>): (r: Result<Point, DashboardError>)
    ensures r == Err(NoStation) <==>
            forall j :: 0 <= j < |stations| && stations[j].estado == estado ==> !Matches(stations[j], municipio, Fuel)
    ensures r.Ok? ==> exists i :: && 0 <= i < |stations|
                                  && IsFirstMin(stations, |stations|, Query(Some(estado), municipio, Fuel), i)
                                  && geocode(EnderecoCompleto(stations[i])) == Some(r.value)
    ensures r == Err(NotGeocoded) ==> exists i :: && 0 <= i < |stations|
                                                 && IsFirstMin(stations, |stations|, Query(Some(estado), municipio, Fuel), i)
                                                 && geocode(EnderecoCompleto(stations[i])).None?
  {
    Geocoded(MenorPrecoNoEstado(stations, estado, municipio, Fuel), geocode)
  }

  /**
   * Only the chosen station's address is looked up: two geocoders that agree
   * on it give the same outcome, whatever they say about other addresses.
   */
  lemma SingleLookup(stations: seq<Station>, municipio: string,
                     g1: string -> Option<Point>, g2: string -> Option<Point>)
    requires MenorPreco(stations, municipio, Fuel).Ok?
    requires g1(EnderecoCompleto(MenorPreco(stations, municipio, Fuel).value)) ==
             g2(EnderecoCompleto(MenorPreco(stations, municipio, Fuel).value))
    ensures LocateAsWritten(stations, municipio, g1) == LocateAsWritten(stations, municipio, g2)
  {
  }

  /**
   * `menor_preco(selectbox_municipio, 'gasolina')` with an upper-case
   * municipality name finds a record exactly when some record of that
   * municipality sells gasoline.
   */
  lemma MenorPrecoGasolina(stations: seq<Station>, municipio: string)
    requires forall i :: 0 <= i < |municipio| ==> !IsLowerAscii(municipio[i])
    ensures MenorPreco(stations, municipio, Fuel).Ok? <==>
            exists i :: 0 <= i < |stations| && stations[i].municipio == municipio && stations[i].produto == "GASOLINA"
  {
    UpperFixed(municipio);
    FuelLabel();
    assert forall j :: 0 <= j < |stations| ==>
      (Matches(stations[j], municipio, Fuel) <==> stations[j].municipio == municipio && stations[j].produto == "GASOLINA");
  }

  /**
   * A listed municipality of the listed state where some record sells
   * gasoline always yields a station; only the geocoder can then fail. The
   * municipality names in the data are upper case.
   */
  lemma ListedSelectionFindsStation(stations: seq<Station>, estado: string, municipio: string, i: nat)
    requires estado in ListaEstados(stations) && municipio in ListaMunicipios(stations, estado)
    requires forall k :: 0 <= k < |municipio| ==> !IsLowerAscii(municipio[k])
    requires i < |stations| && stations[i].estado == estado && stations[i].municipio == municipio
    requires stations[i].produto == "GASOLINA"
    ensures forall g: string -> Option<Point> :: LocateAsWritten(stations, municipio, g) != Err(NoStation)
    ensures forall g: string -> Option<Point> :: Locate(stations, estado, municipio, g) != Err(NoStation)
  {
    UpperFixed(municipio);
    FuelLabel();
    assert Matches(stations[i], municipio, Fuel);
  }

  /** The script's fuel, upper-cased, is the product label of the data. */
  lemma FuelLabel()
    ensures Upper(Fuel) == "GASOLINA"
  {
    var u := Upper(Fuel);
    assert u[0] == 'G' && u[1] == 'A' && u[2] == 'S' && u[3] == 'O';
    assert u[4] == 'L' && u[5] == 'I' && u[6] == 'N' && u[7] == 'A';
  }

  /**
   * Two gasoline records of equally named municipalities in different
   * states (Santa Luzia exists in Minas Gerais and in Paraiba), the first
   * one cheaper.
   */
  predicate SameNameElsewhere(other: Station, chosen: Station)
  {
    && other.estado != chosen.estado && other.municipio == chosen.municipio
    && other.produto == "GASOLINA" && chosen.produto == "GASOLINA"
    && (forall k :: 0 <= k < |chosen.municipio| ==> !IsLowerAscii(chosen.municipio[k]))
    && other.preco < chosen.preco
  }

  /** Both records are offered: the second one's state, then its municipality. */
  lemma CrossStateListed(other: Station, chosen: Station)
    requires SameNameElsewhere(other, chosen)
    ensures chosen.estado in ListaEstados([other, chosen])
    ensures chosen.municipio in ListaMunicipios([other, chosen], chosen.estado)
  {
    var s := [other, chosen];
    assert s[1].estado == chosen.estado && s[1].municipio == chosen.municipio;
  }

  /**
   * The lookup as the script writes it ignores the chosen state: the second
   * record's state and municipality are offered in the sidebar, and choosing
   * them makes `menor_preco` return the record of the other state.
   */
  lemma CrossStateLookup(other: Station, chosen: Station)
    requires SameNameElsewhere(other, chosen)
    ensures MenorPreco([other, chosen], chosen.municipio, Fuel) == Ok(other)
    ensures forall g :: LocateAsWritten([other, chosen], chosen.municipio, g) == Geocoded(Ok(other), g)
  {
    var s := [other, chosen];
    UpperFixed(chosen.municipio);
    FuelLabel();
    var r := MenorPreco(s, chosen.municipio, Fuel);
    assert r.Ok? by { assert Matches(s[0], chosen.municipio, Fuel); }
    assert r.value == other by {
      var i :| 0 <= i < |s| && s[i] == r.value && IsFirstMin(s, |s|, Query(None, chosen.municipio, Fuel), i);
      assert s[i].preco <= s[0].preco;
    }
  }

  /** The lookup restricted to the chosen state returns the record of that state. */
  lemma CrossStateCorrected(other: Station, chosen: Station)
    requires SameNameElsewhere(other, chosen)
    ensures MenorPrecoNoEstado([other, chosen], chosen.estado, chosen.municipio, Fuel) == Ok(chosen)
    ensures forall g :: Locate([other, chosen], chosen.estado, chosen.municipio, g) == Geocoded(Ok(chosen), g)
  {
    var s := [other, chosen];
    UpperFixed(chosen.municipio);
    FuelLabel();
    var q := MenorPrecoNoEstado(s, chosen.estado, chosen.municipio, Fuel);
    assert q.Ok? by { assert s[1].estado == chosen.estado && Matches(s[1], chosen.municipio, Fuel); }
    assert q.value == chosen by {
      var i :| 0 <= i < |s| && s[i] == q.value &&
               IsFirstMin(s, |s|, Query(Some(chosen.estado), chosen.municipio, Fuel), i);
      assert i != 0;
    }
  }
}
