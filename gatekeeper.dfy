/**
 * The access gate in front of the router: a shared-secret key check, a
 * denylist of four statement patterns matched case-insensitively, and the
 * guard chain that decides whether a query is forwarded.
 *
 * Each pattern of the denylist is given twice: as a scanner that runs left
 * to right (`MatchesAt`, `Search`), and as the set of strings the regular
 * expression describes (`RegexAt`, `RegexSearch`). Each scanner's contract
 * states that the two agree, so `IsSafe` is characterised by the patterns
 * themselves.
 */
module Gatekeeper {
  import opened Wrappers
  import opened Text

  /** The key `API_KEY` falls back to when the environment sets none. */
  const DefaultApiKey: string := "secret123"

  /** One entry of the denylist. */
  datatype Rule =
    | DropTable            // drop\s+table
    | UnconditionalDelete  // delete\s+from\s+\w+\s*$
    | Substring(word: string)

  /** The denylist, in its source order. */
  const Dangerous: seq<Rule> :=
    [DropTable, UnconditionalDelete, Substring("truncate"), Substring("shutdown")]

  // ---------------------------------------------------------------------
  // Scanners

  /** `drop\s+table` matches at the start of `t`: `drop`, then the whole
      whitespace run after it, which must not be empty, then `table`. */
  predicate DropTableAt(t: string): (m: bool)
    ensures m <==> exists k :: DropShape(t, k)
  {
    DropShapeFixed(t);
    StartsWith(t, "drop") &&
    var a := 4 + SpaceRun(t[4..]);
    DropShapeFound(t, a);
    a > 4 && StartsWith(t[a..], "table")
  }

  /** `delete\s+from\s+\w+\s*$` matches at the start of `t`. Each run is
      taken whole, and only whitespace may follow the table name. */
  predicate DeleteAt(t: string): (m: bool)
    ensures m <==> exists j, k, l, e :: DeleteShape(t, j, k, l, e)
  {
    if !StartsWith(t, "delete") then false
    else
      var a := 6 + SpaceRun(t[6..]);
      if a <= 6 || !StartsWith(t[a..], "from") then
        DeleteMissesFrom(t, a);
        false
      else
        var b := a + 4 + SpaceRun(t[a + 4..]);
        if b <= a + 4 then
          DeleteMissesGap(t, a, b);
          false
        else
          var c := b + WordRun(t[b..]);
          DeleteScanDecides(t, a, b, c);
          c > b && AllSpace(t[c..])
  }

  /** The rule's pattern matches at the start of `t`. */
  predicate MatchesAt(rule: Rule, t: string): (m: bool)
    ensures m <==> RegexAt(rule, t)
  {
    match rule
    case DropTable => DropTableAt(t)
    case UnconditionalDelete => DeleteAt(t)
    case Substring(w) => StartsWith(t, w)
  }

  /** `re.search`: try the rule at every position, left to right. */
  predicate Search(rule: Rule, s: string): (found: bool)
    ensures found <==> RegexSearch(rule, s)
  {
    SearchStep(rule, s);
    MatchesAt(rule, s) || (s != [] && Search(rule, s[1..]))
  }

  /** Tries the rules in order and stops at the first that matches. */
  function SafeUnder(rules: seq<Rule>, s: string): (safe: bool)
    ensures safe <==> forall k :: 0 <= k < |rules| ==> !Search(rules[k], s)
  {
    if rules == [] then true
    else if Search(rules[0], s) then false
    else SafeUnder(rules[1..], s)
  }

  /** `is_safe`: no rule of the denylist matches the lower-cased query. */
  function IsSafe(sql: string): (safe: bool)
    ensures safe <==> forall k :: 0 <= k < |Dangerous| ==> !Search(Dangerous[k], Lower(sql))
  {
    SafeUnder(Dangerous, Lower(sql))
  }

  // ---------------------------------------------------------------------
  // What each pattern describes

  /** `t` is `drop`, a whitespace run ending at `k`, then `table`. */
  predicate DropShape(t: string, k: int)
  {
    StartsWith(t, "drop") && 4 < k <= |t| && AllSpace(t[4..k]) && OccursAt(t, "table", k)
  }

  /** Where Python's `$` matches without `re.MULTILINE`: at the very end, or
      just before a newline that ends the string. */
  predicate EndAnchor(t: string, e: int)
  {
    e == |t| || (0 <= e == |t| - 1 && t[e] == '\n')
  }

  /** `t` is `delete`, spaces up to `j`, `from`, spaces up to `k`, a word up
      to `l`, spaces up to `e`, and then `$`. */
  predicate DeleteShape(t: string, j: int, k: int, l: int, e: int)
  {
    StartsWith(t, "delete") &&
    6 < j && OccursAt(t, "from", j) && AllSpace(t[6..j]) &&
    j + 4 < k < l <= e <= |t| &&
    AllSpace(t[j + 4..k]) && AllWord(t[k..l]) && AllSpace(t[l..e]) &&
    EndAnchor(t, e)
  }

  /** The strings on which the rule's pattern matches at the start. */
  ghost predicate RegexAt(rule: Rule, t: string)
  {
    match rule
    case DropTable => exists k :: DropShape(t, k)
    case UnconditionalDelete => exists j, k, l, e :: DeleteShape(t, j, k, l, e)
    case Substring(w) => OccursAt(t, w, 0)
  }

  /** `re.search` as a statement: the pattern matches at some position. */
  ghost predicate RegexSearch(rule: Rule, s: string)
  {
    exists i :: 0 <= i <= |s| && RegexAt(rule, s[i..])
  }

  // ---------------------------------------------------------------------
  // The scanners decide the patterns

  /** A drop shape is the one the scanner finds: its whitespace run is the
      whole run after `drop`. */
  lemma DropShapeFixed(t: string)
    ensures forall k :: DropShape(t, k) ==>
      k == 4 + SpaceRun(t[4..]) && StartsWith(t[k..], "table")
  {
    forall k | DropShape(t, k)
      ensures k == 4 + SpaceRun(t[4..]) && StartsWith(t[k..], "table")
    {
      assert t[4..][..k - 4] == t[4..k];
      SpaceRunExact(t[4..], k - 4);
      assert t[k..][..5] == t[k..k + 5];
    }
  }

  lemma DropShapeFound(t: string, a: int)
    requires StartsWith(t, "drop") && a == 4 + SpaceRun(t[4..])
    ensures a > 4 && StartsWith(t[a..], "table") ==> DropShape(t, a)
  {
    assert t[4..][..a - 4] == t[4..a];
    if a + 5 <= |t| {
      assert t[a..][..5] == t[a..a + 5];
    }
  }

  /** After the table name only whitespace, and `$`, may follow. */
  lemma DeleteTail(t: string, k: int, l: int, e: int)
    requires 0 <= k < l <= e <= |t| && EndAnchor(t, e)
    requires AllWord(t[k..l]) && AllSpace(t[l..e])
    ensures WordRun(t[k..]) == l - k && AllSpace(t[l..])
  {
    assert t[k..][..l - k] == t[k..l];
    if l < |t| {
      if l < e {
        assert t[l..e][0] == t[l];
      }
      assert !IsWordChar(t[l]);
    }
    WordRunExact(t[k..], l - k);
    forall m | l <= m < |t| ensures IsSpace(t[m]) {
      if m < e { assert t[l..e][m - l] == t[m]; }
    }
  }

  /** The whitespace run after `delete` in a delete shape is the whole run. */
  lemma DeleteHeadScanned(t: string, j: int)
    requires 6 < j <= |t| && AllSpace(t[6..j]) && OccursAt(t, "from", j)
    ensures j == 6 + SpaceRun(t[6..]) && StartsWith(t[j..], "from")
  {
    assert t[6..][..j - 6] == t[6..j];
    assert t[j] == 'f';
    SpaceRunExact(t[6..], j - 6);
    assert t[j..][..4] == t[j..j + 4];
  }

  /** So is the whitespace run after `from`. */
  lemma DeleteFromScanned(t: string, j: int, k: int)
    requires 0 <= j && j + 4 < k < |t| && AllSpace(t[j + 4..k]) && IsWordChar(t[k])
    ensures k == j + 4 + SpaceRun(t[j + 4..])
  {
    assert t[j + 4..][..k - j - 4] == t[j + 4..k];
    SpaceRunExact(t[j + 4..], k - j - 4);
  }

  /** The positions of a delete shape are the ones the scanner computes. */
  lemma DeleteShapeScanned(t: string, j: int, k: int, l: int, e: int)
    requires DeleteShape(t, j, k, l, e)
    ensures j == 6 + SpaceRun(t[6..]) && StartsWith(t[j..], "from")
    ensures k == j + 4 + SpaceRun(t[j + 4..])
    ensures l == k + WordRun(t[k..]) && AllSpace(t[l..])
  {
    DeleteHeadScanned(t, j);
    assert t[k..l][0] == t[k];
    DeleteFromScanned(t, j, k);
    DeleteTail(t, k, l, e);
  }

  /** Without `from` after the first whitespace run there is no match. */
  lemma DeleteMissesFrom(t: string, a: int)
    requires StartsWith(t, "delete") && a == 6 + SpaceRun(t[6..])
    requires a <= 6 || !StartsWith(t[a..], "from")
    ensures !exists j, k, l, e :: DeleteShape(t, j, k, l, e)
  {
    if j, k, l, e :| DeleteShape(t, j, k, l, e) {
      DeleteHeadScanned(t, j);
    }
  }

  /** Without whitespace after `from` there is no match. */
  lemma DeleteMissesGap(t: string, a: int, b: int)
    requires StartsWith(t, "delete") && a == 6 + SpaceRun(t[6..])
    requires a > 6 && StartsWith(t[a..], "from")
    requires b == a + 4 + SpaceRun(t[a + 4..]) && b <= a + 4
    ensures !exists j, k, l, e :: DeleteShape(t, j, k, l, e)
  {
    if j, k, l, e :| DeleteShape(t, j, k, l, e) {
      DeleteShapeScanned(t, j, k, l, e);
    }
  }

  /** Past `from` and its whitespace, a match is a non-empty word followed
      only by whitespace. */
  lemma DeleteScanDecides(t: string, a: int, b: int, c: int)
    requires StartsWith(t, "delete") && a == 6 + SpaceRun(t[6..])
    requires a > 6 && StartsWith(t[a..], "from")
    requires b == a + 4 + SpaceRun(t[a + 4..]) && b > a + 4
    requires c == b + WordRun(t[b..])
    ensures c > b && AllSpace(t[c..]) <==> exists j, k, l, e :: DeleteShape(t, j, k, l, e)
  {
    if c > b && AllSpace(t[c..]) {
      DeleteScanFound(t, a, b, c);
    }
    if j, k, l, e :| DeleteShape(t, j, k, l, e) {
      DeleteShapeScanned(t, j, k, l, e);
      assert j == a && k == b && l == c;
    }
  }

  lemma DeleteScanFound(t: string, a: int, b: int, c: int)
    requires StartsWith(t, "delete") && a == 6 + SpaceRun(t[6..])
    requires a > 6 && StartsWith(t[a..], "from")
    requires b == a + 4 + SpaceRun(t[a + 4..]) && b > a + 4
    requires c == b + WordRun(t[b..]) && c > b && AllSpace(t[c..])
    ensures DeleteShape(t, a, b, c, |t|)
  {
    assert t[6..][..a - 6] == t[6..a];
    assert t[a..][..4] == t[a..a + 4];
    assert t[a + 4..][..b - a - 4] == t[a + 4..b];
    assert t[b..][..c - b] == t[b..c];
    assert t[c..|t|] == t[c..];
  }

  /** `re.search` steps over one character at a time. */
  lemma SearchStep(rule: Rule, s: string)
    ensures RegexSearch(rule, s) <==>
      RegexAt(rule, s) || (s != [] && RegexSearch(rule, s[1..]))
  {
    assert s[0..] == s;
    if s != [] {
      if RegexSearch(rule, s[1..]) {
        var i :| 0 <= i <= |s[1..]| && RegexAt(rule, s[1..][i..]);
        assert s[1..][i..] == s[i + 1..];
      }
      if i :| 0 < i <= |s| && RegexAt(rule, s[i..]) {
        assert s[1..][i - 1..] == s[i..];
      }
    }
  }

  /** `is_safe` rule by rule, as scanners. */
  lemma IsSafeByRule(sql: string)
    ensures IsSafe(sql) <==>
      !Search(DropTable, Lower(sql)) && !Search(UnconditionalDelete, Lower(sql)) &&
      !Search(Substring("truncate"), Lower(sql)) && !Search(Substring("shutdown"), Lower(sql))
  {
    var s := Lower(sql);
    assert Dangerous[0] == DropTable && Dangerous[1] == UnconditionalDelete;
    assert Dangerous[2] == Substring("truncate") && Dangerous[3] == Substring("shutdown");
    if !IsSafe(sql) {
      var k :| 0 <= k < |Dangerous| && Search(Dangerous[k], s);
      assert k == 0 || k == 1 || k == 2 || k == 3;
    } else {
      assert !Search(Dangerous[0], s) && !Search(Dangerous[1], s);
      assert !Search(Dangerous[2], s) && !Search(Dangerous[3], s);
    }
  }

  /** `is_safe` in terms of the four patterns. */
  lemma IsSafeIff(sql: string)
    ensures IsSafe(sql) <==>
      !RegexSearch(DropTable, Lower(sql)) &&
      !RegexSearch(UnconditionalDelete, Lower(sql)) &&
      !RegexSearch(Substring("truncate"), Lower(sql)) &&
      !RegexSearch(Substring("shutdown"), Lower(sql))
  {
    IsSafeByRule(sql);
  }

  /** The order of the denylist does not change the verdict. */
  lemma SafeUnderOrderFree(rules: seq<Rule>, reordered: seq<Rule>, s: string)
    requires multiset(rules) == multiset(reordered)
    ensures SafeUnder(rules, s) == SafeUnder(reordered, s)
  {
    if !SafeUnder(rules, s) {
      UnsafeCarries(rules, reordered, s);
    }
    if !SafeUnder(reordered, s) {
      UnsafeCarries(reordered, rules, s);
    }
  }

  lemma UnsafeCarries(rules: seq<Rule>, reordered: seq<Rule>, s: string)
    requires multiset(rules) == multiset(reordered)
    requires !SafeUnder(rules, s)
    ensures !SafeUnder(reordered, s)
  {
    var k :| 0 <= k < |rules| && Search(rules[k], s);
    assert rules[k] in multiset(reordered);
    var k' :| 0 <= k' < |reordered| && reordered[k'] == rules[k];
  }

  /** The check ignores case. */
  lemma IsSafeIgnoresCase(sql: string)
    ensures IsSafe(sql) == IsSafe(Lower(sql))
  {
    LowerIdempotent(sql);
  }

  /** `truncate` or `shutdown` anywhere, in any case, even inside an
      identifier, makes a query unsafe. */
  lemma SubstringRuleRejects(sql: string, w: string, i: int)
    requires w == "truncate" || w == "shutdown"
    requires OccursAt(Lower(sql), w, i)
    ensures !IsSafe(sql)
  {
    var s := Lower(sql);
    assert s[i..][..|w|] == s[i..i + |w|];
    assert RegexAt(Substring(w), s[i..]);
    IsSafeIff(sql);
  }

  /** `drop`, a whitespace run and `table`, anywhere, make a query unsafe. */
  lemma DropTableRejects(sql: string, i: int, k: int)
    requires 0 <= i <= |sql|
    requires DropShape(Lower(sql)[i..], k)
    ensures !IsSafe(sql)
  {
    assert RegexAt(DropTable, Lower(sql)[i..]);
    IsSafeIff(sql);
  }

  lemma DeleteShapeEndsClean(t: string, j: int, k: int, l: int, e: int)
    requires DeleteShape(t, j, k, l, e)
    ensures IsSpace(t[|t| - 1]) || IsWordChar(t[|t| - 1])
  {
    if e == |t| && l < e {
      assert t[l..e][e - 1 - l] == t[|t| - 1];
    } else if e == |t| {
      assert t[k..l][l - 1 - k] == t[|t| - 1];
    }
  }

  /** Every unconditional delete ends a query, so the query ends with
      whitespace or a word character: a trailing `;` defeats the rule. */
  lemma DeleteNeedsCleanEnd(s: string)
    requires Search(UnconditionalDelete, s)
    ensures |s| > 0 && (IsSpace(s[|s| - 1]) || IsWordChar(s[|s| - 1]))
  {
    var i :| 0 <= i <= |s| && RegexAt(UnconditionalDelete, s[i..]);
    var t := s[i..];
    var j, k, l, e :| DeleteShape(t, j, k, l, e);
    DeleteShapeEndsClean(t, j, k, l, e);
    assert t[|t| - 1] == s[|s| - 1];
  }

  /** A query with no `p`, no `u`, and a last character that is neither
      whitespace nor a word character (such as `;`) passes the denylist. */
  lemma SafeByLettersAndEnd(sql: string)
    requires 'p' !in Lower(sql) && 'u' !in Lower(sql)
    requires |sql| > 0 && !IsSpace(Lower(sql)[|sql| - 1]) && !IsWordChar(Lower(sql)[|sql| - 1])
    ensures IsSafe(sql)
  {
    NoDropNoTruncateNoShutdown(Lower(sql));
    if Search(UnconditionalDelete, Lower(sql)) {
      DeleteNeedsCleanEnd(Lower(sql));
    }
    IsSafeByRule(sql);
  }

  /** The letters every match of a rule contains. */
  function Letters(rule: Rule): (letters: string)
  {
    match rule
    case DropTable => "droptable"
    case UnconditionalDelete => "deletefrom"
    case Substring(w) => w
  }

  lemma LetterOfOccurrence(t: string, w: string, p: int, c: char)
    requires OccursAt(t, w, p) && c in w
    ensures c in t
  {
    var x :| 0 <= x < |w| && w[x] == c;
    assert t[p..p + |w|][x] == t[p + x];
  }

  /** A query lacking one of a rule's letters cannot match it. */
  lemma NeedsLetter(rule: Rule, s: string, c: char)
    requires c in Letters(rule)
    requires Search(rule, s)
    ensures c in s
  {
    var i :| 0 <= i <= |s| && RegexAt(rule, s[i..]);
    var t := s[i..];
    match rule {
      case DropTable =>
        var k :| DropShape(t, k);
        assert OccursAt(t, "drop", 0);
        if c in "drop" { LetterOfOccurrence(t, "drop", 0, c); }
        else { LetterOfOccurrence(t, "table", k, c); }
      case UnconditionalDelete =>
        var j, k, l, e :| DeleteShape(t, j, k, l, e);
        assert OccursAt(t, "delete", 0);
        if c in "delete" { LetterOfOccurrence(t, "delete", 0, c); }
        else { LetterOfOccurrence(t, "from", j, c); }
      case Substring(w) =>
        LetterOfOccurrence(t, w, 0, c);
    }
    var x :| 0 <= x < |t| && t[x] == c;
    assert s[i + x] == c;
  }

  /** A delete with a `WHERE` clause passes the gate. */
  lemma DeleteWithWhereIsSafe()
    ensures IsSafe("DELETE FROM actor WHERE actor_id=1;")
  {
    LowerLacks("DELETE FROM actor WHERE actor_id=1;", 'p');
    LowerLacks("DELETE FROM actor WHERE actor_id=1;", 'u');
    SafeByLettersAndEnd("DELETE FROM actor WHERE actor_id=1;");
  }

  lemma LowerBareDelete()
    ensures Lower("DELETE FROM actor") == "delete from actor"
  {
  }

  lemma LowerDropTable()
    ensures Lower("DROP TABLE actor;") == "drop table actor;"
  {
  }

  /** A delete of a whole table with no `WHERE` clause is rejected. */
  lemma BareDeleteIsUnsafe()
    ensures !IsSafe("DELETE FROM actor")
  {
    var s := Lower("DELETE FROM actor");
    LowerBareDelete();
    assert s[6..7] == " " && s[11..12] == " " && s[12..17] == "actor";
    assert DeleteShape(s, 7, 12, 17, 17);
    assert RegexAt(UnconditionalDelete, s[0..]);
    IsSafeIff("DELETE FROM actor");
  }

  /** The same delete ended by `;` is not matched, so it passes as written. */
  lemma TerminatedDeleteIsSafe()
    ensures IsSafe("DELETE FROM actor;")
  {
    LowerLacks("DELETE FROM actor;", 'p');
    LowerLacks("DELETE FROM actor;", 'u');
    SafeByLettersAndEnd("DELETE FROM actor;");
  }

  lemma DropTableStatementIsUnsafe()
    ensures !IsSafe("DROP TABLE actor;")
  {
    var s := Lower("DROP TABLE actor;");
    LowerDropTable();
    assert s[..4] == "drop" && s[4..5] == " " && s[5..10] == "table";
    assert DropShape(s[0..], 5);
    DropTableRejects("DROP TABLE actor;", 0, 5);
  }

  lemma PlainSelectIsSafe()
    ensures IsSafe("SELECT * FROM actor;")
  {
    LowerLacks("SELECT * FROM actor;", 'p');
    LowerLacks("SELECT * FROM actor;", 'u');
    SafeByLettersAndEnd("SELECT * FROM actor;");
  }

  /** Without a `p` or a `u`, only the delete rule can match. */
  lemma NoDropNoTruncateNoShutdown(s: string)
    requires 'p' !in s && 'u' !in s
    ensures !Search(DropTable, s)
    ensures !Search(Substring("truncate"), s) && !Search(Substring("shutdown"), s)
  {
    if Search(DropTable, s) { NeedsLetter(DropTable, s, 'p'); }
    if Search(Substring("truncate"), s) { NeedsLetter(Substring("truncate"), s, 'u'); }
    if Search(Substring("shutdown"), s) { NeedsLetter(Substring("shutdown"), s, 'u'); }
  }

  // ---------------------------------------------------------------------
  // The request handlers

  /** What `handle_request` answers. */
  datatype GateReply =
    | Unauthorized      // 403
    | NoQuery           // 400 "No query provided"
    | Rejected          // 400 "Query rejected by Gatekeeper"
    | Forward(sql: string)

  /** `handle_request`: key check, then a non-empty query, then the
      denylist; `key` is the `x-api-key` header and `query` the body's
      `query` field, each absent as `None`. */
  function HandleRequest(apiKey: string, key: Option<string>, query: Option<string>): (r: GateReply)
    ensures r == Unauthorized <==> key != Some(apiKey)
    ensures r == NoQuery <==> key == Some(apiKey) && (query.None? || query.value == "")
    ensures r == Rejected <==>
      key == Some(apiKey) && query.Some? && query.value != "" && !IsSafe(query.value)
    ensures r.Forward? <==>
      key == Some(apiKey) && query.Some? && query.value != "" && IsSafe(query.value)
    ensures r.Forward? ==> r.sql == query.value
  {
    if key != Some(apiKey) then Unauthorized
    else if query.None? || query.value == "" then NoQuery
    else if !IsSafe(query.value) then Rejected
    else Forward(query.value)
  }

  /** A query that matches any pattern of the denylist is never forwarded,
      whatever key comes with it. */
  lemma UnsafeNeverForwarded(apiKey: string, key: Option<string>, sql: string, rule: Rule)
    requires rule in Dangerous && RegexSearch(rule, Lower(sql))
    ensures !HandleRequest(apiKey, key, Some(sql)).Forward?
  {
    var k :| 0 <= k < |Dangerous| && Dangerous[k] == rule;
  }

  /** What the gate's `/stats` handler does. */
  datatype StatsAccess = StatsUnauthorized | FetchStats

  /** The gate's `get_stats`: the same key check, and only then a call to
      the router. */
  function StatsGate(apiKey: string, key: Option<string>): (r: StatsAccess)
    ensures r == FetchStats <==> key == Some(apiKey)
  {
    if key != Some(apiKey) then StatsUnauthorized else FetchStats
  }
}
