/** The request filter of the service detail screen: a line typed by the
    user becomes an SQL WHERE fragment and its parameters. The value the user
    types only ever travels as a parameter; the fragment is drawn from a
    fixed vocabulary of whitelisted columns. */
module FilterParse {
  import opened Wrappers
  import opened PyStr

  /** A query parameter: the source passes strings, and an `int` for a
      bare status code. */
  datatype Param = PText(text: string) | PNum(n: int)

  /** The `(where_clause, params)` pair; `("", [])` means no filter. */
  datatype Where = Where(clause: string, params: seq<Param>)

  const NoFilter := Where("", [])

  const HttpMethods: set<string> := {"GET", "POST", "PUT", "DELETE", "PATCH", "HEAD", "OPTIONS"}

  const ValidColumns: set<string> := {"path", "method", "status", "user_agent", "blocked"}

  /** Every fragment the parser may produce: nothing, a comparison on a
      whitelisted column of the request table, the response status, or the
      blocked flag. */
  predicate SafeClause(clause: string) {
    || clause == ""
    || clause in {"resp.status = ?", "req.is_blocked = 1", "req.is_blocked = 0"}
    || exists c :: c in ValidColumns && (clause == "req." + c + " LIKE ?" || clause == "req." + c + " = ?")
  }

  /** `parse_filter`. The source's `len(parts) == 2` guard after splitting at
      the first "=" always holds, so its fall-through to inference is never
      taken and is not modelled. */
  function ParseFilter(filter: string): (r: Where)
    ensures (forall i :: 0 <= i < |filter| ==> IsSpace(filter[i])) ==> r == NoFilter
    ensures SafeClause(r.clause)
    ensures |r.params| <= 1
    ensures |r.params| == 1 <==> EndsWith(r.clause, "?")
  {
    var f := Strip(filter);
    if |f| == 0 then NoFilter
    else if Contains(f, "=") then
      var (c, v) := SplitOnce(f, "=");
      ParseExplicit(Strip(c), Strip(v))
    else ParseBare(f)
  }

  /** `column=value`, `column=^prefix` and `column=$suffix`. */
  function ParseExplicit(column: string, value: string): (r: Where)
    ensures SafeClause(r.clause)
    ensures |r.params| <= 1
    ensures |r.params| == 1 <==> EndsWith(r.clause, "?")
    ensures column !in ValidColumns ==> r == NoFilter
    ensures column == "blocked" && !StartsWith(value, "^") && !StartsWith(value, "$") ==>
      && (Lower(value) in {"yes", "true", "1"} <==> r == Where("req.is_blocked = 1", []))
      && (Lower(value) in {"no", "false", "0"} <==> r == Where("req.is_blocked = 0", []))
      && (Lower(value) !in {"yes", "true", "1", "no", "false", "0"} <==> r == NoFilter)
  {
    if StartsWith(value, "^") then
      if column in ValidColumns then Like(column, value[1..] + "%") else NoFilter
    else if StartsWith(value, "$") then
      if column in ValidColumns then Like(column, "%" + value[1..]) else NoFilter
    else if column !in ValidColumns then NoFilter
    else if column == "status" then Where("resp.status = ?", [PText(value)])
    else if column == "blocked" then
      var v := Lower(value);
      if v in {"yes", "true", "1"} then Where("req.is_blocked = 1", [])
      else if v in {"no", "false", "0"} then Where("req.is_blocked = 0", [])
      else NoFilter
    else Equal(column, PText(value))
  }

  function Like(column: string, pattern: string): (r: Where)
    requires column in ValidColumns
    ensures SafeClause(r.clause) && EndsWith(r.clause, "?")
  {
    Where("req." + column + " LIKE ?", [PText(pattern)])
  }

  function Equal(column: string, p: Param): (r: Where)
    requires column in ValidColumns
    ensures SafeClause(r.clause) && EndsWith(r.clause, "?")
  {
    Where("req." + column + " = ?", [p])
  }

  /** A bare value that names a response status: digits only, 100 to 599. */
  predicate IsStatusCode(value: string) {
    IsDigits(value) && 100 <= DecimalValue(value) <= 599
  }

  /** A value without a column: a path, a status code in 100..599, a method
      name in any case, or else a substring of the path. */
  function ParseBare(value: string): (r: Where)
    ensures SafeClause(r.clause) && |r.params| == 1 && EndsWith(r.clause, "?")
    ensures r.params[0].PNum? ==> 100 <= r.params[0].n <= 599
    ensures StartsWith(value, "/") ==> r == Equal("path", PText(value))
    ensures r.params[0].PNum? <==> !StartsWith(value, "/") && IsStatusCode(value)
    ensures r.params[0].PNum? ==> r == Where("resp.status = ?", [PNum(DecimalValue(value))])
    ensures r.clause == "req.method = ?" <==>
      !StartsWith(value, "/") && !IsStatusCode(value) && Upper(value) in HttpMethods
    ensures r.clause == "req.path LIKE ?" <==>
      !StartsWith(value, "/") && !IsStatusCode(value) && Upper(value) !in HttpMethods
    ensures r.clause == "req.path LIKE ?" ==> r.params == [PText("%" + value + "%")]
  {
    if StartsWith(value, "/") then Equal("path", PText(value))
    else if IsStatusCode(value) then
      Where("resp.status = ?", [PNum(DecimalValue(value))])
    else if Upper(value) in HttpMethods then Equal("method", PText(Upper(value)))
    else Like("path", "%" + value + "%")
  }

  // ---------------------------------------------------------------------
  // Filters as a user writes them, and what they mean

  datatype Query =
    | Prefix(column: string, value: string)
    | Suffix(column: string, value: string)
    | Equals(column: string, value: string)
    | Blocked(yes: bool)

  predicate NoSpaceAtEnds(s: string) {
    |s| == 0 || (!IsSpace(s[0]) && !IsSpace(s[|s| - 1]))
  }

  /** The queries the syntax can express: a whitelisted column and a value
      without surrounding blanks; an equality value must not begin with an
      operator, and the blocked flag has its own form. */
  predicate WellFormed(q: Query) {
    match q
    case Prefix(c, v) => c in ValidColumns && NoSpaceAtEnds(v)
    case Suffix(c, v) => c in ValidColumns && NoSpaceAtEnds(v)
    case Equals(c, v) =>
      c in ValidColumns && c != "blocked" && NoSpaceAtEnds(v) && !StartsWith(v, "^") && !StartsWith(v, "$")
    case Blocked(_) => true
  }

  /** The filter line for a query: the column, "=", then the operator and
      the value. */
  function Render(q: Query): string
    requires WellFormed(q)
  {
    ColumnOf(q) + "=" + RestOf(q)
  }

  /** What each query selects, as a fragment over the request and response
      tables. */
  function Meaning(q: Query): Where
    requires WellFormed(q)
  {
    match q
    case Prefix(c, v) => Where("req." + c + " LIKE ?", [PText(v + "%")])
    case Suffix(c, v) => Where("req." + c + " LIKE ?", [PText("%" + v)])
    case Equals(c, v) =>
      if c == "status" then Where("resp.status = ?", [PText(v)]) else Where("req." + c + " = ?", [PText(v)])
    case Blocked(yes) => Where(if yes then "req.is_blocked = 1" else "req.is_blocked = 0", [])
  }

  lemma NoEqualsInColumns(c: string)
    requires c in ValidColumns
    ensures forall i :: 0 <= i < |c| ==> c[i] != '='
    ensures |c| > 0 && !IsSpace(c[0]) && !IsSpace(c[|c| - 1])
  {
  }

  lemma StripIdentity(s: string)
    requires NoSpaceAtEnds(s)
    ensures Strip(s) == s
  {
  }

  /** A column name, "=", and the rest: the explicit branch, on the two
      halves as they stand. */
  lemma ExplicitUnfold(c: string, rest: string)
    requires c in ValidColumns && NoSpaceAtEnds(rest)
    ensures ParseFilter(c + "=" + rest) == ParseExplicit(c, rest)
  {
    NoEqualsInColumns(c);
    SplitOnceChar(c, '=', rest);
    var s := c + "=" + rest;
    assert s[0] == c[0];
    assert |rest| > 0 ==> s[|s| - 1] == rest[|rest| - 1];
    StripIdentity(s);
    StripIdentity(c);
    StripIdentity(rest);
  }

  /** Every well-formed query, written out, parses to its meaning. */
  lemma ParseRendered(q: Query)
    requires WellFormed(q)
    ensures ParseFilter(Render(q)) == Meaning(q)
  {
    ExplicitUnfold(ColumnOf(q), RestOf(q));
    match q
    case Prefix(c, v) => PrefixMeaning(c, v);
    case Suffix(c, v) => SuffixMeaning(c, v);
    case Equals(c, v) => EqualsMeaning(c, v);
    case Blocked(yes) => BlockedMeaning(yes);
  }

  lemma PrefixMeaning(c: string, v: string)
    requires WellFormed(Prefix(c, v))
    ensures ParseExplicit(c, "^" + v) == Meaning(Prefix(c, v))
  {
    assert StartsWith("^" + v, "^");
    assert ("^" + v)[1..] == v;
  }

  lemma SuffixMeaning(c: string, v: string)
    requires WellFormed(Suffix(c, v))
    ensures ParseExplicit(c, "$" + v) == Meaning(Suffix(c, v))
  {
    assert !StartsWith("$" + v, "^");
    assert StartsWith("$" + v, "$");
    assert ("$" + v)[1..] == v;
  }

  lemma EqualsMeaning(c: string, v: string)
    requires WellFormed(Equals(c, v))
    ensures ParseExplicit(c, v) == Meaning(Equals(c, v))
  {
  }

  lemma BlockedMeaning(yes: bool)
    ensures ParseExplicit("blocked", if yes then "yes" else "no") == Meaning(Blocked(yes))
  {
    var rest := if yes then "yes" else "no";
    assert rest[0] == (if yes then 'y' else 'n');
    assert !StartsWith(rest, "^") && !StartsWith(rest, "$");
    assert Lower(rest) == rest;
  }

  function ColumnOf(q: Query): string {
    if q.Blocked? then "blocked" else q.column
  }

  /** The text after the "=", which has no surrounding blanks. */
  function RestOf(q: Query): (r: string)
    requires WellFormed(q)
    ensures NoSpaceAtEnds(r)
  {
    match q
    case Prefix(_, v) => "^" + v
    case Suffix(_, v) => "$" + v
    case Equals(_, v) => v
    case Blocked(yes) => if yes then "yes" else "no"
  }

  /** A bare path means the same as `path=` with that path (a path holding
      "=" is read as a column filter instead). */
  lemma BarePathIsPathEquality(v: string)
    requires StartsWith(v, "/") && NoSpaceAtEnds(v)
    requires forall i :: 0 <= i < |v| ==> v[i] != '='
    ensures ParseFilter(v) == ParseFilter(Render(Equals("path", v)))
  {
    BareUnfold(v);
    assert v[0] == '/';
    ParseRendered(Equals("path", v));
  }

  /** A bare method name in any case means `method=` with its upper-case
      form. */
  lemma BareMethodIsMethodEquality(m: string)
    requires Upper(m) in HttpMethods && NoSpaceAtEnds(m)
    ensures WellFormed(Equals("method", Upper(m)))
    ensures ParseFilter(m) == ParseFilter(Render(Equals("method", Upper(m))))
  {
    MethodLetters(m);
    BareMethodParses(m);
    ParseRendered(Equals("method", Upper(m)));
  }

  lemma BareMethodParses(m: string)
    requires Upper(m) in HttpMethods && NoSpaceAtEnds(m)
    requires |m| > 0 && forall i :: 0 <= i < |m| ==> m[i] != '=' && m[i] != '/' && !IsDigit(m[i])
    ensures ParseFilter(m) == Equal("method", PText(Upper(m)))
  {
    BareUnfold(m);
    assert !StartsWith(m, "/") by {
      assert m[0] != '/';
    }
    assert !IsDigits(m) by {
      assert !IsDigit(m[0]);
    }
  }

  /** A value without "=" and blanks at its ends goes to inference as it is. */
  lemma BareUnfold(v: string)
    requires |v| > 0 && NoSpaceAtEnds(v)
    requires forall i :: 0 <= i < |v| ==> v[i] != '='
    ensures ParseFilter(v) == ParseBare(v)
  {
    StripIdentity(v);
    NoCharNotContains(v, '=');
  }

  predicate UpperWord(w: string) {
    |w| > 0 && forall j :: 0 <= j < |w| ==> 'A' <= w[j] <= 'Z'
  }

  lemma MethodsAreUpperWords()
    ensures forall w :: w in HttpMethods ==> UpperWord(w)
  {
    assert UpperWord("GET") && UpperWord("POST") && UpperWord("PUT") && UpperWord("DELETE");
    assert UpperWord("PATCH") && UpperWord("HEAD") && UpperWord("OPTIONS");
  }

  /** Method names are upper-case letters, so a string that upper-cases to
      one holds only letters. */
  lemma MethodLetters(m: string)
    requires Upper(m) in HttpMethods
    ensures |m| > 0
    ensures forall i :: 0 <= i < |m| ==> m[i] != '=' && m[i] != '/' && !IsDigit(m[i])
    ensures WellFormed(Equals("method", Upper(m)))
  {
    var u := Upper(m);
    MethodsAreUpperWords();
    assert UpperWord(u);
    forall i | 0 <= i < |m|
      ensures m[i] != '=' && m[i] != '/' && !IsDigit(m[i])
    {
      assert u[i] == UpperChar(m[i]);
    }
    assert u[0] != '^' && u[0] != '$';
  }
}
