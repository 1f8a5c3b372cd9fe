/**
 * The files,dirs,bytes triples UpdateXAttr keeps under an attribute
 * (metanode/partition_op_extend.go): comma-separated decimals that an update
 * adds to field by field.
 */
module ExtendTriple {
  import opened Strconv
  import opened GoStrings

  /** Indexing fields 0, 1 and 2 of strings.Split(s, ",") does not panic. */
  predicate HasTriple(s: string) {
    |Split(s, ',')| >= 3
  }

  /** strconv.ParseInt of comma field `i`, 0 when it does not parse. */
  function Field(s: string, i: nat): int
    requires HasTriple(s) && i < 3
  {
    ParseInt(Split(s, ',')[i])
  }

  lemma TripleSplit(f: string, d: string, b: string)
    requires IsDecimal(f) && IsDecimal(d) && IsDecimal(b)
    ensures Split(JoinTriple(f, d, b), ',') == [f, d, b]
  {
    DecimalExcludes(f, ',');
    DecimalExcludes(d, ',');
    DecimalExcludes(b, ',');
    assert [f, d, b][1..] == [d, b] && [d, b][1..] == [b];
    assert Join([b], ',') == b;
    assert Join([d, b], ',') == d + [','] + b;
    assert Join([f, d, b], ',') == f + "," + d + "," + b;
    SplitJoin([f, d, b], ',');
  }

  /**
   * The value UpdateXAttr submits for an attribute that already exists: the
   * first three comma fields of the old value and of the request added
   * pairwise (a field that does not parse counts as 0) and written back as
   * decimals joined by commas. Later fields of either side are dropped.
   */
  function SumTriple(prev: string, inc: string): string
    requires HasTriple(prev) && HasTriple(inc)
  {
    SumParts(Split(prev, ','), Split(inc, ','))
  }

  /** The three field sums of two comma-field sequences. */
  datatype Sums = Sums(files: int, dirs: int, bytes: int)

  /** The first three comma fields of a value, each read by ParseInt. */
  function Read(p: seq<string>): Sums
    requires |p| >= 3
  {
    Sums(ParseInt(p[0]), ParseInt(p[1]), ParseInt(p[2]))
  }

  function Add(x: Sums, y: Sums): Sums {
    Sums(x.files + y.files, x.dirs + y.dirs, x.bytes + y.bytes)
  }

  lemma AddAssoc(x: Sums, y: Sums, z: Sums)
    ensures Add(Add(x, y), z) == Add(x, Add(y, z))
  {
  }

  function FieldSums(p: seq<string>, q: seq<string>): Sums
    requires |p| >= 3 && |q| >= 3
  {
    Add(Read(p), Read(q))
  }

  /** SumTriple on the comma fields of its two arguments. */
  function SumParts(p: seq<string>, q: seq<string>): string
    requires |p| >= 3 && |q| >= 3
  {
    TripleOf(FieldSums(p, q))
  }

  /** A triple in the form SumTriple writes: exactly three canonical fields. */
  predicate CanonicalTriple(s: string) {
    var parts := Split(s, ',');
    |parts| == 3 && IsCanonical(parts[0]) && IsCanonical(parts[1]) && IsCanonical(parts[2])
  }

  /** Three numbers written as decimals joined by commas. */
  function TripleOf(t: Sums): string {
    JoinTriple(FormatInt(t.files), FormatInt(t.dirs), FormatInt(t.bytes))
  }

  function JoinTriple(f: string, d: string, b: string): string {
    f + "," + d + "," + b
  }

  /** Split reads the three decimals back from TripleOf. */
  lemma TripleOfSplit(t: Sums)
    ensures Split(TripleOf(t), ',') == [FormatInt(t.files), FormatInt(t.dirs), FormatInt(t.bytes)]
  {
    TripleSplit(FormatInt(t.files), FormatInt(t.dirs), FormatInt(t.bytes));
  }

  /**
   * The summed triple has exactly three fields, each a canonical decimal that
   * reads back as the sum of the corresponding fields of the two inputs.
   */
  lemma SumTripleFields(prev: string, inc: string)
    requires HasTriple(prev) && HasTriple(inc)
    ensures CanonicalTriple(SumTriple(prev, inc))
    ensures Field(SumTriple(prev, inc), 0) == Field(prev, 0) + Field(inc, 0)
    ensures Field(SumTriple(prev, inc), 1) == Field(prev, 1) + Field(inc, 1)
    ensures Field(SumTriple(prev, inc), 2) == Field(prev, 2) + Field(inc, 2)
  {
    var t := FieldSums(Split(prev, ','), Split(inc, ','));
    TripleOfSplit(t);
    assert Split(SumTriple(prev, inc), ',') == [FormatInt(t.files), FormatInt(t.dirs), FormatInt(t.bytes)];
  }

  lemma JoinThree(parts: seq<string>)
    requires |parts| == 3
    ensures Join(parts, ',') == JoinTriple(parts[0], parts[1], parts[2])
  {
    assert parts[1..][1..] == [parts[2]];
    assert Join(parts[1..], ',') == parts[1] + [','] + parts[2];
  }

  /** Adding zero to each of three canonical fields writes them back unchanged. */
  lemma SumPartsZero(p: seq<string>)
    requires |p| == 3 && IsCanonical(p[0]) && IsCanonical(p[1]) && IsCanonical(p[2])
    ensures SumParts(p, ["0", "0", "0"]) == JoinTriple(p[0], p[1], p[2])
  {
    assert "0"[..0] == "";
    assert ParseInt("0") == 0;
    assert Read(["0", "0", "0"]) == Sums(0, 0, 0);
    assert FieldSums(p, ["0", "0", "0"]) == Read(p);
    FormatParse(p[0]);
    FormatParse(p[1]);
    FormatParse(p[2]);
  }

  lemma ZeroFields()
    ensures Split("0,0,0", ',') == ["0", "0", "0"]
  {
    TripleSplit("0", "0", "0");
    assert "0,0,0" == JoinTriple("0", "0", "0");
  }

  /** Adding the increment "0,0,0" leaves a canonical triple as it was. */
  lemma {:induction false} SumTripleZero(prev: string)
    requires CanonicalTriple(prev)
    ensures HasTriple("0,0,0") && SumTriple(prev, "0,0,0") == prev
  {
    var parts := Split(prev, ',');
    ZeroFields();
    SumPartsZero(parts);
    JoinThree(parts);
  }

  /** Two successive increments amount to one increment by their sum. */
  lemma {:induction false} SumTripleAssoc(a: string, b: string, c: string)
    requires HasTriple(a) && HasTriple(b) && HasTriple(c)
    ensures HasTriple(SumTriple(a, b)) && HasTriple(SumTriple(b, c))
    ensures SumTriple(SumTriple(a, b), c) == SumTriple(a, SumTriple(b, c))
  {
    var A, B, C := Split(a, ','), Split(b, ','), Split(c, ',');
    var s1, s2 := FieldSums(A, B), FieldSums(B, C);
    TripleOfSplit(s1);
    TripleOfSplit(s2);
    var AB, BC := Split(SumTriple(a, b), ','), Split(SumTriple(b, c), ',');
    assert Read(AB) == s1 && Read(BC) == s2;
    AddAssoc(Read(A), Read(B), Read(C));
    assert FieldSums(AB, C) == FieldSums(A, BC);
  }
}
