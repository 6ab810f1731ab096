/**
 * `menor_preco(cidade, combustivel)`: the record of the cheapest station for
 * a municipality and fuel, found with `idxmin` over the matching rows.
 */
module Pricing {
  import opened Wrappers
  import opened Text
  import opened Stations

  /** The row filter: municipality and product equal the upper-cased query. */
  predicate Matches(st: Station, cidade: string, combustivel: string)
  {
    st.municipio == Upper(cidade) && st.produto == Upper(combustivel)
  }

  /**
   * The boolean mask of the lookup: municipality and product equal the
   * upper-cased query and, when a state is given, the record lies in it.
   * The script's own mask has no state.
   */
  datatype Query = Query(estado: Option<string>, cidade: string, combustivel: string)

  predicate Selects(q: Query, st: Station)
  {
    (q.estado.Some? ==> st.estado == q.estado.value) && Matches(st, q.cidade, q.combustivel)
  }

  /**
   * Index `i` is what `idxmin` returns over the first `n` records: a selected
   * record whose price is at most every selected price, with no earlier
   * selected record at that price.
   */
  predicate IsFirstMin(stations: seq<Station>, n: nat, q: Query, i: nat)
    requires n <= |stations|
  {
    && i < n
    && Selects(q, stations[i])
    && (forall j :: 0 <= j < n && Selects(q, stations[j]) ==> stations[i].preco <= stations[j].preco)
    && (forall j :: 0 <= j < i && Selects(q, stations[j]) ==> stations[i].preco < stations[j].preco)
  }

  predicate NoMatch(stations: seq<Station>, n: nat, q: Query)
    requires n <= |stations|
  {
    forall j :: 0 <= j < n ==> !Selects(q, stations[j])
  }

  /** `idxmin` over the selected records among the first `n`; `None` when there are none. */
  function IdxMin(stations: seq<Station>, n: nat, q: Query): (r: Option<nat>)
    requires n <= |stations|
    ensures r.None? <==> NoMatch(stations, n, q)
    ensures r.Some? ==> IsFirstMin(stations, n, q, r.value)
  {
    if n == 0 then None
    else
      var best := IdxMin(stations, n - 1, q);
      if !Selects(q, stations[n - 1]) then best
      else if best.None? || stations[n - 1].preco < stations[best.value].preco then Some(n - 1)
      else best
  }

  /** At most one index satisfies the first-minimum property. */
  lemma FirstMinUnique(stations: seq<Station>, n: nat, q: Query, i: nat, k: nat)
    requires n <= |stations|
    requires IsFirstMin(stations, n, q, i)
    requires IsFirstMin(stations, n, q, k)
    ensures i == k
  {
  }

  /** Two masks that select the same records give the same `idxmin`. */
  lemma {:induction false} IdxMinSameSelection(stations: seq<Station>, n: nat, q1: Query, q2: Query)
    requires n <= |stations|
    requires forall j :: 0 <= j < n ==> (Selects(q1, stations[j]) <==> Selects(q2, stations[j]))
    ensures IdxMin(stations, n, q1) == IdxMin(stations, n, q2)
  {
    if n > 0 {
      IdxMinSameSelection(stations, n - 1, q1, q2);
    }
  }

  /** `idxmin` of an empty selection raises a ValueError. */
  datatype LookupError = EmptySelection

  /**
   * `df.iloc[idxmin, :]` as the script writes it, over municipality and
   * product only: the cheapest matching record, taking the earliest row
   * among equally cheap ones. The table's index is the default range index,
   * so the label `idxmin` returns is also the row position.
   */
  function MenorPreco(stations: seq<Station>, cidade: string, combustivel: string): (r: Result<Station, LookupError>)
    ensures r.Err? <==> forall j :: 0 <= j < |stations| ==> !Matches(stations[j], cidade, combustivel)
    ensures r.Ok? ==> Matches(r.value, cidade, combustivel)
    ensures r.Ok? ==> forall j :: 0 <= j < |stations| && Matches(stations[j], cidade, combustivel) ==>
                                  r.value.preco <= stations[j].preco
    ensures r.Ok? ==> exists i :: 0 <= i < |stations| && stations[i] == r.value &&
                                  IsFirstMin(stations, |stations|, Query(None, cidade, combustivel), i)
  {
    match IdxMin(stations, |stations|, Query(None, cidade, combustivel))
    case None => Err(EmptySelection)
    case Some(i) => Ok(stations[i])
  }

  /**
   * The lookup with the state chosen in the sidebar added to the mask, as
   * the municipality list already has it: the cheapest matching record of
   * that state, the earliest row among equally cheap ones.
   */
  function MenorPrecoNoEstado(stations: seq<Station>, estado: string, cidade: string, combustivel: string): (r: Result<Station, LookupError>)
    ensures r.Err? <==> forall j :: 0 <= j < |stations| && stations[j].estado == estado ==>
                                    !Matches(stations[j], cidade, combustivel)
    ensures r.Ok? ==> r.value.estado == estado && Matches(r.value, cidade, combustivel)
    ensures r.Ok? ==> forall j :: (0 <= j < |stations| && stations[j].estado == estado &&
                                   Matches(stations[j], cidade, combustivel)) ==> r.value.preco <= stations[j].preco
    ensures r.Ok? ==> exists i :: 0 <= i < |stations| && stations[i] == r.value &&
                                  IsFirstMin(stations, |stations|, Query(Some(estado), cidade, combustivel), i)
  {
    match IdxMin(stations, |stations|, Query(Some(estado), cidade, combustivel))
    case None => Err(EmptySelection)
    case Some(i) => Ok(stations[i])
  }

  /**
   * Where every matching record lies in the chosen state, restricting the
   * mask to that state changes nothing.
   */
  lemma NoEstadoAgrees(stations: seq<Station>, estado: string, cidade: string, combustivel: string)
    requires forall j :: 0 <= j < |stations| && Matches(stations[j], cidade, combustivel) ==> stations[j].estado == estado
    ensures MenorPrecoNoEstado(stations, estado, cidade, combustivel) == MenorPreco(stations, cidade, combustivel)
  {
    IdxMinSameSelection(stations, |stations|, Query(Some(estado), cidade, combustivel), Query(None, cidade, combustivel));
  }
}
