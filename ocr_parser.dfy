/**
 * The nutrition-label text parser of the OCR endpoint: for each label field a
 * pattern "keyword, one or more ':' or whitespace characters, value" is
 * searched in the lower-cased text, the value of its first match is stored,
 * and the number of fields found decides a confidence grade.
 *
 * Each of the source's regular expressions is modelled by a hand-written
 * matcher. Character classes `[:\s]`, `\d` and `[^\n]` are runs over
 * `CharClass`. For these patterns backtracking never changes the captured
 * group except in two places, both modelled explicitly: a value that must be
 * followed by an 'm' (`mg?`) is tried only in its greedy form, since every
 * shorter form is followed by a digit or a '.'; and the rest-of-line value of
 * `serving size` may start inside the separator run when the text ends there.
 */
module NutritionOcr {
  import opened Wrappers
  import opened Strings

  /** The character classes of the patterns: `[:\s]`, `\d`, `[^\n]`. */
  datatype CharClass = Separator | Digit | NotNewline

  predicate InClass(c: char, cls: CharClass) {
    match cls
    case Separator => c == ':' || IsSpace(c)
    case Digit => IsDigit(c)
    case NotNewline => c != '\n'
  }

  /** The length of the longest run of `cls` characters starting at `p`. */
  function Run(t: string, p: nat, cls: CharClass): (n: nat)
    requires p <= |t|
    ensures p + n <= |t|
    ensures forall k :: p <= k < p + n ==> InClass(t[k], cls)
    ensures p + n == |t| || !InClass(t[p + n], cls)
    decreases |t| - p
  {
    if p < |t| && InClass(t[p], cls) then 1 + Run(t, p + 1, cls) else 0
  }

  /** What follows the separators: `(\d+)`, `(\d+\.?\d*)`, `(\d+\.?\d*)m` or `([^\n]+)`. */
  datatype ValueKind = WholeNumber | Decimal | DecimalThenM | RestOfLine

  /** One entry of the pattern table: the result key, the keyword spellings in the order the regex tries them, and the value. */
  datatype Pattern = Pattern(key: string, keywords: seq<string>, kind: ValueKind)

  /** The patterns in the order the source walks them. */
  const Patterns: seq<Pattern> := [
    Pattern("calories", ["calories"], WholeNumber),
    Pattern("total_fat", ["total fat"], Decimal),
    Pattern("saturated_fat", ["saturated fat"], Decimal),
    Pattern("trans_fat", ["trans fat"], Decimal),
    Pattern("cholesterol", ["cholesterol"], DecimalThenM),
    Pattern("sodium", ["sodium"], DecimalThenM),
    Pattern("total_carbs", ["total carbohydrates", "total carbohydrate"], Decimal),
    Pattern("fiber", ["dietary fiber"], Decimal),
    Pattern("sugar", ["total sugars", "total sugar", "sugars", "sugar"], Decimal),
    Pattern("protein", ["protein"], Decimal),
    Pattern("serving_size", ["serving size"], RestOfLine)
  ]

  /** The keys of the result, in the order of the source's dictionary. */
  const NutritionKeys: seq<string> := ["name", "serving_size", "calories", "total_fat", "saturated_fat",
    "trans_fat", "cholesterol", "sodium", "total_carbs", "fiber", "sugar", "protein"]

  /** `\d+\.?\d*` read greedily from `q`: where it ends, if at least one digit is there. */
  function NumberEnd(t: string, q: nat): (e: Option<nat>)
    requires q <= |t|
    ensures e.Some? ==> q < e.value <= |t|
  {
    var d := Run(t, q, Digit);
    if d == 0 then None
    else if q + d < |t| && t[q + d] == '.' then Some(q + d + 1 + Run(t, q + d + 1, Digit))
    else Some(q + d)
  }

  /**
   * Where `([^\n]+)` starts after a separator run of length `k` at `p`, trying
   * the longest run first: the first shortening that leaves a non-newline to match.
   */
  function RestStart(t: string, p: nat, k: nat): (s: Option<nat>)
    requires p + k <= |t|
    ensures s.Some? ==> p < s.value <= p + k && s.value < |t| && t[s.value] != '\n'
    ensures s.Some? ==> forall j :: s.value < j <= p + k ==> j == |t| || t[j] == '\n'
    ensures s.None? ==> forall j :: p < j <= p + k ==> j == |t| || t[j] == '\n'
  {
    if k == 0 then None
    else if p + k < |t| && t[p + k] != '\n' then Some(p + k)
    else RestStart(t, p, k - 1)
  }

  /** The group captured by the value part of a pattern whose keyword ends at `p`. */
  function ValueAt(t: string, p: nat, kind: ValueKind): (r: Option<string>)
    requires p <= |t|
    ensures r.Some? ==> Run(t, p, Separator) > 0 && |r.value| > 0
  {
    var sep := Run(t, p, Separator);
    if sep == 0 then None
    else
      var q := p + sep;
      match kind
      case WholeNumber =>
        var d := Run(t, q, Digit);
        if d == 0 then None else Some(t[q..q + d])
      case Decimal =>
        var e := NumberEnd(t, q);
        if e.None? then None else Some(t[q..e.value])
      case DecimalThenM =>
        var e := NumberEnd(t, q);
        if e.None? || e.value == |t| || t[e.value] != 'm' then None else Some(t[q..e.value])
      case RestOfLine =>
        var s := RestStart(t, p, sep);
        if s.None? then None else Some(t[s.value..s.value + Run(t, s.value, NotNewline)])
  }

  /** The group of a match starting at `i`: the first keyword spelling, in order, that is followed by a value. */
  function MatchAt(t: string, i: nat, keywords: seq<string>, kind: ValueKind): (r: Option<string>)
    requires i <= |t|
    ensures r.Some? ==> i < |t| && |r.value| > 0
  {
    if keywords == [] then None
    else
      var kw := keywords[0];
      if kw <= t[i..] && ValueAt(t, i + |kw|, kind).Some? then ValueAt(t, i + |kw|, kind)
      else MatchAt(t, i, keywords[1..], kind)
  }

  /** A match found by `re.search`: where it starts and what group 1 captured. */
  datatype Found = Found(start: nat, group: string)

  /** `re.search`: the match at the leftmost position from `i` on. */
  function SearchFrom(t: string, i: nat, pat: Pattern): (r: Option<Found>)
    requires i <= |t|
    ensures r.Some? ==> i <= r.value.start <= |t| && MatchAt(t, r.value.start, pat.keywords, pat.kind) == Some(r.value.group)
    ensures r.Some? ==> forall j :: i <= j < r.value.start ==> MatchAt(t, j, pat.keywords, pat.kind).None?
    ensures r.None? ==> forall j :: i <= j <= |t| ==> MatchAt(t, j, pat.keywords, pat.kind).None?
    decreases |t| - i
  {
    var m := MatchAt(t, i, pat.keywords, pat.kind);
    if m.Some? then Some(Found(i, m.value))
    else if i == |t| then None
    else SearchFrom(t, i + 1, pat)
  }

  function Search(t: string, pat: Pattern): Option<Found> {
    SearchFrom(t, 0, pat)
  }

  /** A value of the result dictionary: `float(group)` (kept as its digits) or a stripped string. */
  datatype FieldValue = Number(digits: string) | Text(text: string)

  /** The value stored for a match: numbers as matched, `serving_size` stripped. */
  function StoredValue(pat: Pattern, group: string): (r: FieldValue)
    ensures r.Text? <==> pat.key == "serving_size" || pat.key == "name"
    ensures r.Number? ==> r.digits == group
  {
    if pat.key != "serving_size" && pat.key != "name" then Number(group) else Text(Strip(group))
  }

  /** The position of a result key's pattern in `Patterns`, or -1 for a key without one. */
  function PatternIndex(key: string): (r: int)
    ensures -1 <= r < |Patterns|
    ensures r >= 0 ==> Patterns[r].key == key
    ensures r == -1 ==> forall i :: 0 <= i < |Patterns| ==> Patterns[i].key != key
  {
    if key == "calories" then 0
    else if key == "total_fat" then 1
    else if key == "saturated_fat" then 2
    else if key == "trans_fat" then 3
    else if key == "cholesterol" then 4
    else if key == "sodium" then 5
    else if key == "total_carbs" then 6
    else if key == "fiber" then 7
    else if key == "sugar" then 8
    else if key == "protein" then 9
    else if key == "serving_size" then 10
    else -1
  }

  /** The value of one key for already lower-cased text. */
  function FieldFor(lower: string, key: string): Option<FieldValue> {
    var i := PatternIndex(key);
    if i < 0 then None
    else
      var found := Search(lower, Patterns[i]);
      if found.None? then None else Some(StoredValue(Patterns[i], found.value.group))
  }

  /** What `parse_nutrition_info(text)` returns, key by key. */
  function Parsed(text: string): (r: map<string, Option<FieldValue>>)
    ensures r.Keys == set k | k in NutritionKeys
  {
    map k | k in NutritionKeys :: FieldFor(Lower(text), k)
  }

  /** The initial dictionary: every key present, every value `None`. */
  function EmptyData(): (d: map<string, Option<FieldValue>>)
    ensures d.Keys == set k | k in NutritionKeys
    ensures forall k :: k in d ==> d[k].None?
  {
    map k | k in NutritionKeys :: None
  }

  predicate DistinctKeys(pats: seq<Pattern>) {
    forall i, j :: 0 <= i < j < |pats| ==> pats[i].key != pats[j].key
  }

  lemma PatternsWellFormed()
    ensures DistinctKeys(Patterns)
    ensures forall i :: 0 <= i < |Patterns| ==> Patterns[i].key in NutritionKeys
    ensures forall i :: 0 <= i < |Patterns| ==> Patterns[i].key != "name"
  {
  }

  /** Each pattern is found at its own position. */
  lemma PatternIndexOf(i: nat)
    requires i < |Patterns|
    ensures PatternIndex(Patterns[i].key) == i
  {
    PatternsWellFormed();
    var r := PatternIndex(Patterns[i].key);
    if r != i {
      assert Patterns[r].key == Patterns[i].key;
    }
  }

  /** After the first `i` patterns: every key present, and exactly the keys of those patterns filled in. */
  predicate FilledUpTo(lower: string, data: map<string, Option<FieldValue>>, i: nat) {
    && data.Keys == (set k | k in NutritionKeys)
    && forall k :: k in data ==> data[k] == if 0 <= PatternIndex(k) < i then FieldFor(lower, k) else None
  }

  /** One round of the loop: pattern `i` stores its match, if any, under its own key. */
  function Fill(lower: string, data: map<string, Option<FieldValue>>, i: nat): map<string, Option<FieldValue>>
    requires i < |Patterns|
  {
    var found := Search(lower, Patterns[i]);
    if found.None? then data else data[Patterns[i].key := Some(StoredValue(Patterns[i], found.value.group))]
  }

  lemma FillStep(lower: string, data: map<string, Option<FieldValue>>, i: nat)
    requires i < |Patterns|
    requires FilledUpTo(lower, data, i)
    ensures FilledUpTo(lower, Fill(lower, data, i), i + 1)
  {
    PatternsWellFormed();
    PatternIndexOf(i);
  }

  lemma FilledAll(text: string, data: map<string, Option<FieldValue>>)
    requires FilledUpTo(Lower(text), data, |Patterns|)
    ensures data == Parsed(text)
  {
  }

  /** `parse_nutrition_info`: fills the dictionary pattern by pattern. */
  method ParseNutritionInfo(text: string) returns (data: map<string, Option<FieldValue>>)
    ensures data == Parsed(text)
  {
    data := EmptyData();
    var textLower := Lower(text);
    PatternsWellFormed();
    var i := 0;
    while i < |Patterns|
      invariant 0 <= i <= |Patterns|
      invariant FilledUpTo(textLower, data, i)
    {
      var pat := Patterns[i];
      var found := Search(textLower, pat);
      ghost var before := data;
      if found.Some? {
        if pat.key != "serving_size" && pat.key != "name" {
          data := data[pat.key := Some(Number(found.value.group))];
        } else {
          data := data[pat.key := Some(Text(Strip(found.value.group)))];
        }
      }
      FillStep(textLower, before, i);
      i := i + 1;
    }
    assert data == Parsed(text) by {
      FilledAll(text, data);
    }
  }

  /** `sum(1 for v in nutrition_info.values() if v is not None)` over the given keys. */
  function CountFound(data: map<string, Option<FieldValue>>, keys: seq<string>): (n: nat)
    requires forall k :: k in keys ==> k in data
    ensures n <= |keys|
  {
    if keys == [] then 0
    else (if data[keys[0]].Some? then 1 else 0) + CountFound(data, keys[1..])
  }

  function FieldsFound(data: map<string, Option<FieldValue>>): (n: nat)
    requires forall k :: k in NutritionKeys ==> k in data
    ensures n <= |NutritionKeys|
  {
    CountFound(data, NutritionKeys)
  }

  /** The confidence grade of a scan from the number of fields found. */
  function Confidence(fieldsFound: nat): (r: string)
    ensures r == "high" || r == "medium" || r == "low"
  {
    if fieldsFound >= 5 then "high" else if fieldsFound >= 3 then "medium" else "low"
  }

  /** The grade is "high" from five fields, "medium" for three or four, "low" below three. */
  lemma ConfidenceGrades(n: nat)
    ensures Confidence(n) == "high" <==> n >= 5
    ensures Confidence(n) == "medium" <==> 3 <= n <= 4
    ensures Confidence(n) == "low" <==> n <= 2
  {
  }

  /** The result always has exactly the twelve keys, and `name`, which has no pattern, stays `None`. */
  lemma ParsedShape(text: string)
    ensures Parsed(text).Keys == set k | k in NutritionKeys
    ensures Parsed(text)["name"].None?
  {
    assert PatternIndex("name") == -1;
  }

  /** At most eleven fields are ever found, since `name` is never set. */
  lemma FieldsFoundAtMostEleven(text: string)
    ensures FieldsFound(Parsed(text)) <= 11
  {
    ParsedShape(text);
    var d := Parsed(text);
    assert NutritionKeys[0] == "name";
    assert CountFound(d, NutritionKeys) == CountFound(d, NutritionKeys[1..]);
  }

  /** Changing the case of ASCII letters in the text does not change the result. */
  lemma CaseInsensitive(a: string, b: string)
    requires Lower(a) == Lower(b)
    ensures Parsed(a) == Parsed(b)
  {
  }

  lemma ParsedOfLowered(text: string)
    ensures Parsed(Lower(text)) == Parsed(text)
  {
    LowerIdempotent(text);
  }

  /** A key with a pattern gets a value exactly when its pattern matches the lower-cased text, and the value of the first match. */
  lemma ParsedValue(text: string, i: nat)
    requires i < |Patterns|
    ensures var pat := Patterns[i];
      var found := Search(Lower(text), pat);
      && (Parsed(text)[pat.key].Some? <==> found.Some?)
      && (found.Some? ==> Parsed(text)[pat.key] == Some(StoredValue(pat, found.value.group)))
  {
    PatternIndexOf(i);
    PatternsWellFormed();
  }

  /** `\d+\.?\d*`: digits, then possibly a point and more digits. */
  predicate DecimalLiteral(s: string) {
    exists a :: 0 < a <= |s| && AllDigits(s[..a]) && (a == |s| || (s[a] == '.' && AllDigits(s[a + 1..])))
  }

  /**
   * The shape of a numeric group `g` found after a keyword ending at `p`: it
   * starts right after the run of separators there, which is not empty, is a
   * decimal literal (so `float` accepts it), and is the longest such literal
   * there; an `mg?` value is followed by an 'm'.
   */
  predicate NumericShape(t: string, p: nat, kind: ValueKind, g: string)
    requires p <= |t|
  {
    var q := p + Run(t, p, Separator);
    && p < q <= |t| - |g| && t[q..q + |g|] == g
    && DecimalLiteral(g)
    && (q + |g| == |t| || !IsDigit(t[q + |g|]))
    && (kind == WholeNumber ==> AllDigits(g))
    && (kind == DecimalThenM ==> q + |g| < |t| && t[q + |g|] == 'm')
  }

  /** Every numeric value the matcher captures has that shape. */
  lemma NumericValueShape(t: string, p: nat, kind: ValueKind)
    requires p <= |t| && kind != RestOfLine && ValueAt(t, p, kind).Some?
    ensures NumericShape(t, p, kind, ValueAt(t, p, kind).value)
  {
    match kind
    case WholeNumber => WholeNumberShape(t, p);
    case Decimal => DecimalShape(t, p, Decimal);
    case DecimalThenM => DecimalShape(t, p, DecimalThenM);
  }

  lemma WholeNumberShape(t: string, p: nat)
    requires p <= |t| && ValueAt(t, p, WholeNumber).Some?
    ensures NumericShape(t, p, WholeNumber, ValueAt(t, p, WholeNumber).value)
  {
    var q := p + Run(t, p, Separator);
    DigitRunShape(t, q);
  }

  lemma DecimalShape(t: string, p: nat, kind: ValueKind)
    requires p <= |t| && (kind == Decimal || kind == DecimalThenM) && ValueAt(t, p, kind).Some?
    ensures NumericShape(t, p, kind, ValueAt(t, p, kind).value)
  {
    var q := p + Run(t, p, Separator);
    var e := NumberEnd(t, q).value;
    var g := ValueAt(t, p, kind).value;
    assert g == t[q..e];
    assert q + |g| == e;
    NumberEndShape(t, q);
  }

  /** `\d+` read greedily from `q`: all digits, a decimal literal, not followed by a digit. */
  lemma DigitRunShape(t: string, q: nat)
    requires q <= |t| && Run(t, q, Digit) > 0
    ensures var g := t[q..q + Run(t, q, Digit)];
      AllDigits(g) && DecimalLiteral(g) && (q + |g| == |t| || !IsDigit(t[q + |g|]))
  {
    var d := Run(t, q, Digit);
    var g := t[q..q + d];
    assert g[..d] == g;
  }

  /** `\d+\.?\d*` read greedily from `q`: a decimal literal not followed by a digit. */
  lemma NumberEndShape(t: string, q: nat)
    requires q <= |t| && NumberEnd(t, q).Some?
    ensures var e := NumberEnd(t, q).value;
      DecimalLiteral(t[q..e]) && (e == |t| || !IsDigit(t[e]))
  {
    var d := Run(t, q, Digit);
    var e := NumberEnd(t, q).value;
    var g := t[q..e];
    assert g[..d] == t[q..q + d];
    assert 0 < d <= |g| && AllDigits(g[..d]);
    if q + d < |t| && t[q + d] == '.' {
      assert g[d] == '.';
      assert g[d + 1..] == t[q + d + 1..e];
    } else {
      assert g[..d] == g;
    }
  }

  /**
   * The `serving size` value is the rest of a line: non-empty, without a newline,
   * running to the line's end, and starting inside or right after the separators.
   */
  lemma ServingSizeShape(t: string, p: nat)
    requires p <= |t| && ValueAt(t, p, RestOfLine).Some?
    ensures var g := ValueAt(t, p, RestOfLine).value;
      var s := RestStart(t, p, Run(t, p, Separator)).value;
      && p < s <= |t| - |g| && t[s..s + |g|] == g
        && |g| > 0 && '\n' !in g
        && (s + |g| == |t| || t[s + |g|] == '\n')
        && (forall k :: p <= k < s ==> InClass(t[k], Separator))
  {
    var sep := Run(t, p, Separator);
    var s := RestStart(t, p, sep).value;
    var g := ValueAt(t, p, RestOfLine).value;
    var n := Run(t, s, NotNewline);
    assert g == t[s..s + n];
    assert forall k :: 0 <= k < |g| ==> g[k] == t[s + k];
  }
}
