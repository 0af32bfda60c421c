/** The rolling-row edit distance and the nearest-name choice, both of which the repository has twice. */
module EditDistance {
  import opened CodeUnits
  import opened Options
  import opened Basics

  // ----- what distance means: single edits, one after the other -----

  /** `b` is `a` with one unit inserted, deleted or replaced. */
  ghost predicate OneEdit(a: Text, b: Text) {
    || (exists i | 0 <= i < |b| :: a == b[..i] + b[i + 1..])
    || (exists i | 0 <= i < |a| :: b == a[..i] + a[i + 1..])
    || (|a| == |b| && exists i | 0 <= i < |a| :: b == a[i := b[i]])
  }

  /** A sequence of texts, each one edit away from the one before. */
  ghost predicate EditPath(path: seq<Text>, a: Text, b: Text) {
    && path != [] && path[0] == a && path[|path| - 1] == b
    && forall i | 0 <= i < |path| - 1 :: OneEdit(path[i], path[i + 1])
  }

  // ----- the recurrence -----

  function Init(t: Text): Text
    requires t != []
  {
    t[..|t| - 1]
  }

  function Last(t: Text): Unit
    requires t != []
  {
    t[|t| - 1]
  }

  lemma InitLast(t: Text)
    requires t != []
    ensures t == Init(t) + [Last(t)]
  {
  }

  function Cost(x: Unit, y: Unit): nat {
    if x == y then 0 else 1
  }

  function Distance(a: Text, b: Text): nat
    decreases |a| + |b|
  {
    if a == [] then |b|
    else if b == [] then |a|
    else
      Min(Min(Distance(a, Init(b)) + 1, Distance(Init(a), b) + 1), Distance(Init(a), Init(b)) + Cost(Last(a), Last(b)))
  }

  lemma {:induction false} DistanceSymmetric(a: Text, b: Text)
    ensures Distance(a, b) == Distance(b, a)
    decreases |a| + |b|
  {
    if a != [] && b != [] {
      DistanceSymmetric(a, Init(b));
      DistanceSymmetric(Init(a), b);
      DistanceSymmetric(Init(a), Init(b));
    }
  }

  /** Dropping a last unit changes a distance by at most one. */
  lemma {:induction false} DistanceStep(a: Text, b: Text)
    requires a != []
    ensures Distance(a, b) <= Distance(Init(a), b) + 1
  {
  }

  lemma {:induction false} LengthBound(a: Text, b: Text)
    ensures |b| <= Distance(a, b) + |a|
    decreases |a| + |b|
  {
    if a != [] && b != [] {
      LengthBound(a, Init(b));
      LengthBound(Init(a), b);
      LengthBound(Init(a), Init(b));
    }
  }

  lemma {:induction false} SumBound(a: Text, b: Text)
    ensures Distance(a, b) <= |a| + |b|
    decreases |a| + |b|
  {
    if a != [] && b != [] { SumBound(Init(a), b); }
  }

  lemma {:induction false} Triangle(a: Text, b: Text, c: Text)
    ensures Distance(a, c) <= Distance(a, b) + Distance(b, c)
    decreases |a| + |b| + |c|
  {
    if a == [] {
      LengthBound(b, c);
    } else if c == [] {
      LengthBound(b, a);
      DistanceSymmetric(a, b);
    } else if b == [] {
      SumBound(a, c);
    } else {
      if Distance(a, b) == Distance(Init(a), b) + 1 {
        Triangle(Init(a), b, c);
      } else if Distance(b, c) == Distance(b, Init(c)) + 1 {
        Triangle(a, b, Init(c));
      } else if Distance(a, b) == Distance(a, Init(b)) + 1 {
        if Distance(b, c) == Distance(Init(b), c) + 1 {
          Triangle(a, Init(b), c);
        } else {
          Triangle(a, Init(b), Init(c));
        }
      } else if Distance(b, c) == Distance(Init(b), c) + 1 {
        Triangle(Init(a), Init(b), c);
      } else {
        Triangle(Init(a), Init(b), Init(c));
      }
    }
  }

  /** Distance zero is equality: the shortcut in the first copy loses nothing. */
  lemma {:induction false} DistanceZero(a: Text, b: Text)
    ensures Distance(a, b) == 0 <==> a == b
    ensures a == [] ==> Distance(a, b) == |b|
    ensures b == [] ==> Distance(a, b) == |a|
    decreases |a| + |b|
  {
    if a != [] && b != [] {
      DistanceZero(Init(a), Init(b));
      assert a == Init(a) + [Last(a)] && b == Init(b) + [Last(b)];
    }
  }

  // ----- distance is the length of a shortest edit path -----

  lemma {:induction false} CommonSuffix(a: Text, b: Text, s: Text)
    ensures Distance(a + s, b + s) <= Distance(a, b)
    decreases |s|
  {
    if s == [] {
      assert a + s == a && b + s == b;
    } else {
      CommonSuffix(a, b, Init(s));
      assert Init(a + s) == a + Init(s) && Init(b + s) == b + Init(s);
    }
  }

  /** Removing the unit at `i`, in both directions. */
  lemma RemovalIsClose(t: Text, i: nat)
    requires i < |t|
    ensures Distance(t, t[..i] + t[i + 1..]) <= 1 && Distance(t[..i] + t[i + 1..], t) <= 1
  {
    var with, without, rest := t[..i + 1], t[..i], t[i + 1..];
    assert t == with + rest && Init(with) == without;
    DistanceZero(without, without);
    DistanceStep(with, without);
    CommonSuffix(with, without, rest);
    DistanceSymmetric(t, without + rest);
  }

  lemma ReplacementIsClose(t: Text, i: nat, u: Unit)
    requires i < |t|
    ensures Distance(t, t[i := u]) <= 1
  {
    var start, rest := t[..i], t[i + 1..];
    SplitAt(t, i, u);
    DistanceZero(start, start);
    DiagonalStep(start, start, t[i], u);
    CommonSuffix(start + [t[i]], start + [u], rest);
  }

  lemma SplitAt(t: Text, i: nat, u: Unit)
    requires i < |t|
    ensures t == (t[..i] + [t[i]]) + t[i + 1..] && t[i := u] == (t[..i] + [u]) + t[i + 1..]
  {
  }

  lemma DiagonalStep(a: Text, b: Text, x: Unit, y: Unit)
    ensures Distance(a + [x], b + [y]) <= Distance(a, b) + Cost(x, y)
  {
    assert Init(a + [x]) == a && Init(b + [y]) == b;
  }

  lemma OneEditIsClose(a: Text, b: Text)
    requires OneEdit(a, b)
    ensures Distance(a, b) <= 1
  {
    if i :| 0 <= i < |b| && a == b[..i] + b[i + 1..] {
      RemovalIsClose(b, i);
    } else if i :| 0 <= i < |a| && b == a[..i] + a[i + 1..] {
      RemovalIsClose(a, i);
    } else {
      var i :| 0 <= i < |a| && b == a[i := b[i]];
      ReplacementIsClose(a, i, b[i]);
    }
  }

  lemma {:induction false} PathIsLongEnough(path: seq<Text>, a: Text, b: Text)
    requires EditPath(path, a, b)
    ensures Distance(a, b) <= |path| - 1
    decreases |path|
  {
    if |path| == 1 {
      DistanceZero(a, b);
    } else {
      OneEditIsClose(a, path[1]);
      PathIsLongEnough(path[1..], path[1], b);
      Triangle(a, path[1], b);
    }
  }

  /** Appending the same unit everywhere keeps every step a single edit. */
  lemma OneEditAppend(a: Text, b: Text, u: Unit)
    requires OneEdit(a, b)
    ensures OneEdit(a + [u], b + [u])
  {
    if i :| 0 <= i < |b| && a == b[..i] + b[i + 1..] {
      assert a + [u] == (b + [u])[..i] + (b + [u])[i + 1..];
    } else if i :| 0 <= i < |a| && b == a[..i] + a[i + 1..] {
      assert b + [u] == (a + [u])[..i] + (a + [u])[i + 1..];
    } else {
      var i :| 0 <= i < |a| && b == a[i := b[i]];
      assert b + [u] == (a + [u])[i := (b + [u])[i]];
    }
  }

  function AppendAll(path: seq<Text>, u: Unit): (r: seq<Text>)
    ensures |r| == |path| && forall i | 0 <= i < |path| :: r[i] == path[i] + [u]
  {
    seq(|path|, i requires 0 <= i < |path| => path[i] + [u])
  }

  lemma PathAppend(path: seq<Text>, a: Text, b: Text, u: Unit)
    requires EditPath(path, a, b)
    ensures EditPath(AppendAll(path, u), a + [u], b + [u])
  {
    var r := AppendAll(path, u);
    forall i | 0 <= i < |r| - 1 ensures OneEdit(r[i], r[i + 1]) { OneEditAppend(path[i], path[i + 1], u); }
  }

  lemma PathExtend(path: seq<Text>, a: Text, b: Text, c: Text)
    requires EditPath(path, a, b) && OneEdit(b, c)
    ensures EditPath(path + [c], a, c)
  {
  }

  lemma InsertLast(t: Text, u: Unit)
    ensures OneEdit(t, t + [u]) && OneEdit(t + [u], t)
  {
    assert t == (t + [u])[..|t|] + (t + [u])[|t| + 1..];
  }

  lemma PathPrepend(path: seq<Text>, a: Text, b: Text, c: Text)
    requires EditPath(path, b, c) && OneEdit(a, b)
    ensures EditPath([a] + path, a, c)
  {
    var longer := [a] + path;
    forall i | 0 <= i < |longer| - 1 ensures OneEdit(longer[i], longer[i + 1]) {
      if i > 0 { assert longer[i] == path[i - 1] && longer[i + 1] == path[i]; }
    }
  }

  lemma ReplaceLast(t: Text, x: Unit, y: Unit)
    ensures OneEdit(t + [x], t + [y])
  {
    assert t + [y] == (t + [x])[|t| := (t + [y])[|t|]];
  }

  lemma KeepOrReplace(shorter: seq<Text>, a: Text, b: Text, x: Unit, y: Unit) returns (path: seq<Text>)
    requires EditPath(shorter, a, b)
    ensures EditPath(path, a + [x], b + [y]) && |path| == |shorter| + Cost(x, y)
  {
    PathAppend(shorter, a, b, x);
    path := AppendAll(shorter, x);
    if x != y {
      ReplaceLast(b, x, y);
      PathExtend(path, a + [x], b + [x], b + [y]);
      path := path + [b + [y]];
    }
  }

  lemma {:induction false} ShortPathExists(a: Text, b: Text) returns (path: seq<Text>)
    ensures EditPath(path, a, b) && |path| - 1 == Distance(a, b)
    decreases |a| + |b|
  {
    if a == [] && b == [] {
      path := [a];
    } else if b != [] && (a == [] || Distance(a, b) == Distance(a, Init(b)) + 1) {
      path := ShortPathExists(a, Init(b));
      InsertLast(Init(b), Last(b));
      InitLast(b);
      PathExtend(path, a, Init(b), b);
      path := path + [b];
    } else if a != [] && (b == [] || Distance(a, b) == Distance(Init(a), b) + 1) {
      path := ShortPathExists(Init(a), b);
      InsertLast(Init(a), Last(a));
      InitLast(a);
      PathPrepend(path, a, Init(a), b);
      path := [a] + path;
    } else {
      path := ShortPathExists(Init(a), Init(b));
      InitLast(a);
      InitLast(b);
      path := KeepOrReplace(path, Init(a), Init(b), Last(a), Last(b));
    }
  }

  /** `Distance` is the least number of single edits that turn `a` into `b`. */
  lemma DistanceIsShortest(a: Text, b: Text, n: nat)
    ensures Distance(a, b) <= n <==> exists path :: EditPath(path, a, b) && |path| - 1 <= n
  {
    if Distance(a, b) <= n {
      var path := ShortPathExists(a, b);
    }
    if path :| EditPath(path, a, b) && |path| - 1 <= n {
      PathIsLongEnough(path, a, b);
    }
  }

  // ----- the rolling rows -----

  /** One row of the table: the distances from a prefix of `a` to every prefix of `b`. */
  ghost predicate Row(row: seq<nat>, a: Text, b: Text) {
    |row| == |b| + 1 && forall j | 0 <= j <= |b| :: row[j] == Distance(a, b[..j])
  }

  lemma {:induction false} EntryValue(a: Text, b: Text, left: nat, up: nat, diagonal: nat)
    requires a != [] && b != []
    requires left == Distance(a, Init(b)) && up == Distance(Init(a), b) && diagonal == Distance(Init(a), Init(b))
    ensures Distance(a, b) == Min(Min(left + 1, up + 1), diagonal + Cost(Last(a), Last(b)))
  {
  }

  lemma PrefixSteps(t: Text, n: nat)
    requires 0 < n <= |t|
    ensures t[..n] != [] && Init(t[..n]) == t[..n - 1] && Last(t[..n]) == t[n - 1]
  {
  }

  lemma {:induction false} RowStarts(a: Text)
    ensures Row([|a|], a, [])
  {
    var empty: Text := [];
    assert empty[..0] == empty;
  }

  lemma {:induction false} RowGrows(row: seq<nat>, a: Text, b: Text, entry: nat)
    requires b != [] && Row(row, a, Init(b)) && entry == Distance(a, b)
    ensures Row(row + [entry], a, b)
  {
    forall k | 0 <= k <= |b| ensures (row + [entry])[k] == Distance(a, b[..k]) {
      if k < |b| { assert b[..k] == Init(b)[..k]; } else { assert b[..k] == b; }
    }
  }

  lemma {:induction false} RowPrefix(row: seq<nat>, a: Text, b: Text, j: nat)
    requires Row(row, a, b) && j <= |b|
    ensures row[j] == Distance(a, b[..j]) && b[..|b|] == b
  {
  }

  /** One entry from its three neighbours. */
  lemma {:induction false} EntryGrows(previous: seq<nat>, current: seq<nat>, a: Text, b: Text, prefix: Text)
    requires a != [] && prefix != [] && prefix <= b
    requires Row(previous, Init(a), b) && Row(current, a, Init(prefix))
    ensures var j := |prefix| - 1;
      var entry := Min(Min(current[j] + 1, previous[j + 1] + 1), previous[j] + Cost(Last(a), Last(prefix)));
      Row(current + [entry], a, prefix)
  {
    var j := |prefix| - 1;
    assert b[..j + 1] == prefix && b[..j] == Init(prefix);
    RowPrefix(previous, Init(a), b, j);
    RowPrefix(previous, Init(a), b, j + 1);
    RowPrefix(current, a, Init(prefix), j);
    EntryValue(a, prefix, current[j], previous[j + 1], previous[j]);
    RowGrows(current, a, prefix, Distance(a, prefix));
  }

  /** The row of `a` from the row of all of `a` but its last unit. */
  method NextRow(previous: seq<nat>, a: Text, b: Text) returns (current: seq<nat>)
    requires a != [] && Row(previous, Init(a), b)
    ensures Row(current, a, b)
  {
    current := [|a|];
    RowStarts(a);
    assert b[..0] == [];
    for j := 0 to |b|
      invariant Row(current, a, b[..j])
    {
      PrefixSteps(b, j + 1);
      EntryGrows(previous, current, a, b, b[..j + 1]);
      current := current + [Min(Min(current[j] + 1, previous[j + 1] + 1), previous[j] + Cost(Last(a), b[j]))];
    }
    assert b[..|b|] == b;
  }

  lemma {:induction false} FirstRow(row: seq<nat>, b: Text)
    requires |row| == |b| + 1 && forall j | 0 <= j <= |b| :: row[j] == j
    ensures Row(row, [], b)
  {
  }

  /** The rows, shared by both copies. */
  method Rows(a: Text, b: Text) returns (distance: nat)
    ensures distance == Distance(a, b)
  {
    var previous: seq<nat> := seq(|b| + 1, i => i);
    FirstRow(previous, b);
    assert a[..0] == [];
    for i := 0 to |a|
      invariant Row(previous, a[..i], b)
    {
      PrefixSteps(a, i + 1);
      previous := NextRow(previous, a[..i + 1], b);
    }
    assert a[..|a|] == a;
    RowPrefix(previous, a, b, |b|);
    return previous[|b|];
  }

  /** `levenshtein` of the run-mode code, with its three shortcuts. */
  method Levenshtein(a: Text, b: Text) returns (distance: nat)
    ensures distance == Distance(a, b)
  {
    DistanceZero(a, b);
    DistanceSymmetric(a, b);
    if a == b { return 0; }
    if |a| == 0 { return |b|; }
    if |b| == 0 { return |a|; }
    distance := Rows(a, b);
  }

  // ----- the nearest name -----

  predicate Alphanumeric(u: Unit) {
    48 <= u <= 57 || 65 <= u <= 90 || 97 <= u <= 122
  }

  function NormalizeUnit(u: Unit): Text {
    if !Alphanumeric(u) then [] else if 65 <= u <= 90 then [u + 32] else [u]
  }

  /** `value.replace(/[^a-z0-9]/gi, "").toLowerCase()`. */
  function NormalizeName(value: Text): Text {
    if value == [] then [] else NormalizeUnit(value[0]) + NormalizeName(value[1..])
  }

  lemma {:induction false} NormalizeConcat(a: Text, b: Text)
    ensures NormalizeName(a + b) == NormalizeName(a) + NormalizeName(b)
  {
    if a == [] {
      assert a + b == b;
    } else {
      assert (a + b)[1..] == a[1..] + b;
      NormalizeConcat(a[1..], b);
      Associates(NormalizeUnit(a[0]), NormalizeName(a[1..]), NormalizeName(b));
    }
  }

  predicate LowerAlphanumeric(u: Unit) { 48 <= u <= 57 || 97 <= u <= 122 }

  /** Names are compared in a normal form without case and punctuation. */
  lemma {:induction false} NormalForm(name: Text)
    ensures forall i | 0 <= i < |NormalizeName(name)| :: LowerAlphanumeric(NormalizeName(name)[i])
    ensures (forall i | 0 <= i < |name| :: LowerAlphanumeric(name[i])) ==> NormalizeName(name) == name
    ensures NormalizeName(NormalizeName(name)) == NormalizeName(name)
    decreases |name|
  {
    if name != [] {
      var first := NormalizeUnit(name[0]);
      NormalForm(name[1..]);
      NormalizeConcat(first, NormalizeName(name[1..]));
      if first != [] {
        assert first[1..] == [];
        assert NormalizeName(first) == first;
      }
      assert name == [name[0]] + name[1..];
    }
  }

  /** One letter or digit: capitals become small, all else but letters and digits is dropped. With
      `NormalizeConcat` that is the form of every name. */
  lemma UnitForms(k: nat, u: Unit)
    requires k < 26
    ensures NormalizeName([65 + k]) == [97 + k] && NormalizeName([97 + k]) == [97 + k]
    ensures 48 <= u <= 57 ==> NormalizeName([u]) == [u]
    ensures u < 48 || 57 < u < 65 || 90 < u < 97 || 122 < u ==> NormalizeName([u]) == []
  {
    assert [65 + k][1..] == [] && [97 + k][1..] == [] && [u][1..] == [];
  }

  ghost function Score(input: Text, candidate: Text): nat {
    Distance(NormalizeName(input), NormalizeName(candidate))
  }

  ghost function Scores(input: Text, candidates: seq<Text>): (scores: seq<nat>)
    ensures |scores| == |candidates|
    ensures forall i | 0 <= i < |candidates| :: scores[i] == Score(input, candidates[i])
  {
    seq(|candidates|, i requires 0 <= i < |candidates| => Score(input, candidates[i]))
  }

  lemma {:induction false} OneMoreScore(input: Text, candidates: seq<Text>, i: nat)
    requires i < |candidates|
    ensures Scores(input, candidates[..i + 1]) == Scores(input, candidates[..i]) + [Score(input, candidates[i])]
  {
  }

  /** The first least score. */
  ghost predicate FirstLeast(scores: seq<nat>, k: nat) {
    && k < |scores|
    && (forall i | 0 <= i < |scores| :: scores[k] <= scores[i])
    && forall i | 0 <= i < k :: scores[k] < scores[i]
  }

  /** The first candidate at the least distance. */
  ghost predicate FirstBest(input: Text, candidates: seq<Text>, k: nat) {
    FirstLeast(Scores(input, candidates), k)
  }

  ghost function Threshold(input: Text, best: Text): nat {
    Max(2, Max(Max(|NormalizeName(input)|, |NormalizeName(best)|), 1) / 3)
  }

  lemma FirstBestIsUnique(input: Text, candidates: seq<Text>, j: nat, k: nat)
    requires FirstBest(input, candidates, j) && FirstBest(input, candidates, k)
    ensures j == k
  {
    var scores := Scores(input, candidates);
    assert scores[k] == scores[j];
  }

  ghost function WithinThreshold(input: Text, best: Text): Option<Text> {
    if Score(input, best) <= Threshold(input, best) then Some(best) else None
  }

  /** `closestName` of the run-mode code. */
  method ClosestName(input: Text, candidates: seq<Text>) returns (suggestion: Option<Text>)
    ensures candidates == [] ==> suggestion == None
    ensures candidates != [] ==> exists k: nat ::
      FirstBest(input, candidates, k) && suggestion == WithinThreshold(input, candidates[k])
  {
    var normalizedInput := NormalizeName(input);
    var best: Option<nat> := None;
    var bestScore: nat := 0;
    ghost var scores: seq<nat> := [];
    for i := 0 to |candidates|
      invariant best.None? <==> i == 0
      invariant scores == Scores(input, candidates[..i])
      invariant best.Some? ==> FirstLeast(scores, best.value) && bestScore == scores[best.value]
    {
      var score := Levenshtein(normalizedInput, NormalizeName(candidates[i]));
      OneMoreScore(input, candidates, i);
      scores := scores + [score];
      if best.None? || score < bestScore {
        bestScore := score;
        best := Some(i);
      }
    }
    if best.None? { return None; }
    assert candidates[..|candidates|] == candidates;
    var name := candidates[best.value];
    var baseline := Max(Max(|normalizedInput|, |NormalizeName(name)|), 1);
    suggestion := if bestScore <= Max(2, baseline / 3) then Some(name) else None;
  }

  /** `closestName` of the call policy: the rows without shortcuts, and an empty best name counts as
      no name at all. */
  method ClosestPolicyName(input: Text, candidates: seq<Text>) returns (suggestion: Option<Text>)
    ensures candidates == [] ==> suggestion == None
    ensures candidates != [] ==> exists k: nat ::
      && FirstBest(input, candidates, k)
      && suggestion == if candidates[k] == [] then None else WithinThreshold(input, candidates[k])
  {
    var source := NormalizeName(input);
    var best: Option<nat> := None;
    var bestDistance: nat := 0;
    ghost var scores: seq<nat> := [];
    for i := 0 to |candidates|
      invariant best.None? <==> i == 0
      invariant scores == Scores(input, candidates[..i])
      invariant best.Some? ==> FirstLeast(scores, best.value) && bestDistance == scores[best.value]
    {
      var candidateDistance := Rows(source, NormalizeName(candidates[i]));
      OneMoreScore(input, candidates, i);
      scores := scores + [candidateDistance];
      if best.None? || candidateDistance < bestDistance {
        best := Some(i);
        bestDistance := candidateDistance;
      }
    }
    if best.None? { return None; }
    assert candidates[..|candidates|] == candidates;
    var name := candidates[best.value];
    if name == [] { return None; }
    var baseline := Max(Max(|source|, |NormalizeName(name)|), 1);
    suggestion := if bestDistance <= Max(2, baseline / 3) then Some(name) else None;
  }
}
