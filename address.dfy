/**
 * `endereco_completo`: the address of the chosen station as one string, the
 * six address fields in a fixed order separated by ", ".
 */
module Address {
  import opened Stations

  /** `", ".join(parts)`. */
  function Join(parts: seq<string>): string
    requires |parts| > 0
  {
    if |parts| == 1 then parts[0] else parts[0] + ", " + Join(parts[1..])
  }

  /** The address fields in the order the f-string writes them. */
  function Fields(st: Station): seq<string>
  {
    [st.rua, st.numero, st.bairro, st.municipio, st.estado, st.cep]
  }

  function EnderecoCompleto(st: Station): (r: string)
    ensures r == st.rua + ", " + st.numero + ", " + st.bairro + ", " +
                 st.municipio + ", " + st.estado + ", " + st.cep
  {
    var f := Fields(st);
    assert Join(f[5..]) == st.cep;
    assert Join(f[4..]) == st.estado + ", " + st.cep by { assert f[4..][1..] == f[5..]; }
    assert Join(f[3..]) == st.municipio + ", " + Join(f[4..]) by { assert f[3..][1..] == f[4..]; }
    assert Join(f[2..]) == st.bairro + ", " + Join(f[3..]) by { assert f[2..][1..] == f[3..]; }
    assert Join(f[1..]) == st.numero + ", " + Join(f[2..]) by { assert f[1..][1..] == f[2..]; }
    Join(f)
  }

  /** Cuts a string at every ", ", the inverse of Join on comma-free parts. */
  function Split(s: string): (r: seq<string>)
    ensures |r| > 0
    decreases |s|
  {
    if s == [] then [[]]
    else if |s| >= 2 && s[0] == ',' && s[1] == ' ' then [[]] + Split(s[2..])
    else
      var rest := Split(s[1..]);
      [[s[0]] + rest[0]] + rest[1..]
  }

  lemma {:induction false} SplitPlain(p: string)
    requires ',' !in p
    ensures Split(p) == [p]
  {
    if p != [] {
      SplitPlain(p[1..]);
      assert [p[0]] + p[1..] == p;
    }
  }

  lemma {:induction false} SplitStep(p: string, t: string)
    requires ',' !in p
    ensures Split(p + ", " + t) == [p] + Split(t)
  {
    if p == [] {
      assert p + ", " + t == ", " + t;
      assert (", " + t)[2..] == t;
    } else {
      var s := p + ", " + t;
      assert s[0] == p[0] && s[0] != ',';
      assert s[1..] == p[1..] + ", " + t;
      SplitStep(p[1..], t);
      assert [p[0]] + p[1..] == p;
    }
  }

  /** Joining comma-free parts and splitting again gives the parts back. */
  lemma {:induction false} SplitJoin(parts: seq<string>)
    requires |parts| > 0
    requires forall i :: 0 <= i < |parts| ==> ',' !in parts[i]
    ensures Split(Join(parts)) == parts
  {
    if |parts| == 1 {
      SplitPlain(parts[0]);
    } else {
      SplitStep(parts[0], Join(parts[1..]));
      SplitJoin(parts[1..]);
      assert [parts[0]] + parts[1..] == parts;
    }
  }

  /**
   * When no address field contains a comma the string determines the fields:
   * splitting it at ", " gives street, number, neighbourhood, municipality,
   * state and postal code, in that order.
   */
  lemma EnderecoFields(st: Station)
    requires forall i :: 0 <= i < |Fields(st)| ==> ',' !in Fields(st)[i]
    ensures Split(EnderecoCompleto(st)) == Fields(st)
  {
    SplitJoin(Fields(st));
  }

  /** The layout on a sample record. */
  lemma EnderecoExample()
    ensures EnderecoCompleto(Station("RS", "PORTO ALEGRE", "Rua A", "10", "Centro", "90000-000", "GASOLINA", 5.20))
            == "Rua A, 10, Centro, PORTO ALEGRE, RS, 90000-000"
  {
    var s := "Rua A" + ", " + "10";
    assert s == "Rua A, 10";
    s := s + ", " + "Centro";
    assert s == "Rua A, 10, Centro";
    s := s + ", " + "PORTO ALEGRE";
    assert s == "Rua A, 10, Centro, PORTO ALEGRE";
    s := s + ", " + "RS";
    assert s == "Rua A, 10, Centro, PORTO ALEGRE, RS";
    s := s + ", " + "90000-000";
    assert s == "Rua A, 10, Centro, PORTO ALEGRE, RS, 90000-000";
  }
}
