/**
 * The cascading selection lists of the sidebar: the sorted distinct states
 * (`np.sort(df['Estado'].unique())`) and the sorted distinct municipalities
 * of the chosen state.
 */
module Selection {
  import opened Text
  import opened Stations

  /** Strictly ascending in code-point order, hence without duplicates. */
  predicate StrictlyAscending(s: seq<string>)
  {
    forall i, j :: 0 <= i < j < |s| ==> Less(s[i], s[j])
  }

  lemma AscendingDistinct(s: seq<string>, i: nat, j: nat)
    requires StrictlyAscending(s) && i < j < |s|
    ensures s[i] != s[j]
  {
    LessIrreflexive(s[i]);
  }

  /** Places `x` into a strictly ascending list unless it is already there. */
  function Insert(s: seq<string>, x: string): (r: seq<string>)
    requires StrictlyAscending(s)
    ensures StrictlyAscending(r)
    ensures forall v :: v in r <==> v in s || v == x
  {
    if s == [] then [x]
    else if x == s[0] then s
    else if Less(x, s[0]) then
      assert forall j :: 0 <= j < |s| ==> Less(x, s[j]) by {
        forall j | 0 <= j < |s| ensures Less(x, s[j]) {
          if j > 0 { LessTransitive(x, s[0], s[j]); }
        }
      }
      [x] + s
    else
      LessTotal(x, s[0]);
      var rest := Insert(s[1..], x);
      assert forall v :: v in rest ==> Less(s[0], v) by {
        forall v | v in rest ensures Less(s[0], v) {
          if v != x {
            var j :| 1 <= j < |s| && s[j] == v;
          }
        }
      }
      [s[0]] + rest
  }

  /** `np.sort(xs.unique())`: every value once, in ascending order. */
  function SortedDistinct(xs: seq<string>): (r: seq<string>)
    ensures StrictlyAscending(r)
    ensures forall v :: v in r <==> v in xs
  {
    if xs == [] then [] else Insert(SortedDistinct(xs[..|xs| - 1]), xs[|xs| - 1])
  }

  /** The head of a strictly ascending list precedes every other element. */
  lemma HeadLeast(s: seq<string>, v: string)
    requires StrictlyAscending(s) && v in s
    ensures v == s[0] || Less(s[0], v)
  {
    var i :| 0 <= i < |s| && s[i] == v;
    if i > 0 {
      assert Less(s[0], s[i]);
    }
  }

  /**
   * A strictly ascending list is determined by its elements: any sorted,
   * duplicate-free listing of the same values is the same list.
   */
  lemma {:induction false} AscendingUnique(a: seq<string>, b: seq<string>)
    requires StrictlyAscending(a) && StrictlyAscending(b)
    requires forall v :: v in a <==> v in b
    ensures a == b
  {
    assert a != [] ==> a[0] in a;
    assert b != [] ==> b[0] in b;
    if a != [] && b != [] {
      // Both heads are the least value, so they agree.
      HeadLeast(a, b[0]);
      HeadLeast(b, a[0]);
      if Less(a[0], b[0]) {
        LessAsymmetric(a[0], b[0]);
      }
      assert a[0] == b[0];
      forall v ensures v in a[1..] <==> v in b[1..] {
        if v in a[1..] {
          var k :| 1 <= k < |a| && a[k] == v;
          AscendingDistinct(a, 0, k);
          assert v in b;
        }
        if v in b[1..] {
          var k :| 1 <= k < |b| && b[k] == v;
          AscendingDistinct(b, 0, k);
          assert v in a;
        }
      }
      AscendingUnique(a[1..], b[1..]);
      assert a == [a[0]] + a[1..] && b == [b[0]] + b[1..];
    } else {
      assert a == [] && b == [];
    }
  }

  /** Any strictly ascending listing of the values of `xs` is `SortedDistinct(xs)`. */
  lemma SortedDistinctUnique(xs: seq<string>, r: seq<string>)
    requires StrictlyAscending(r) && forall v :: v in r <==> v in xs
    ensures r == SortedDistinct(xs)
  {
    AscendingUnique(r, SortedDistinct(xs));
  }

  /** `df['Estado']`. */
  function EstadoColumn(stations: seq<Station>): (r: seq<string>)
    ensures |r| == |stations| && forall i :: 0 <= i < |stations| ==> r[i] == stations[i].estado
  {
    if stations == [] then [] else [stations[0].estado] + EstadoColumn(stations[1..])
  }

  /** `df[df['Estado'] == estado]['Municipio']`. */
  function MunicipiosOf(stations: seq<Station>, estado: string): (r: seq<string>)
    ensures forall v :: v in r <==> exists i :: 0 <= i < |stations| && stations[i].estado == estado && stations[i].municipio == v
  {
    if stations == [] then []
    else
      (if stations[0].estado == estado then [stations[0].municipio] else []) +
      MunicipiosOf(stations[1..], estado)
  }

  /** `lista_estados`: the states of the records, each once, in ascending order. */
  function ListaEstados(stations: seq<Station>): (r: seq<string>)
    ensures StrictlyAscending(r)
    ensures forall v :: v in r <==> exists i :: 0 <= i < |stations| && stations[i].estado == v
  {
    SortedDistinct(EstadoColumn(stations))
  }

  /** `lista_municipios`: the municipalities of the chosen state, each once, ascending. */
  function ListaMunicipios(stations: seq<Station>, estado: string): (r: seq<string>)
    ensures StrictlyAscending(r)
    ensures forall v :: v in r <==> exists i :: 0 <= i < |stations| && stations[i].estado == estado && stations[i].municipio == v
  {
    SortedDistinct(MunicipiosOf(stations, estado))
  }

  /** Choosing a listed state always offers some municipality. */
  lemma CascadeNonEmpty(stations: seq<Station>, estado: string)
    requires estado in ListaEstados(stations)
    ensures ListaMunicipios(stations, estado) != []
  {
    var i :| 0 <= i < |stations| && stations[i].estado == estado;
    assert stations[i].municipio in ListaMunicipios(stations, estado);
  }

  /** Every listed municipality of the chosen state has a record there. */
  lemma MunicipioHasStation(stations: seq<Station>, estado: string, municipio: string)
    requires municipio in ListaMunicipios(stations, estado)
    ensures exists i :: 0 <= i < |stations| && stations[i].estado == estado && stations[i].municipio == municipio
  {
  }
}
