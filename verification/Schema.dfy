/** Typo suggestions for configuration fields: the two-row edit distance and the search for the closest field. */
module Schema {
  import opened Wrappers
  import opened Arithmetic

  /** The Levenshtein distance, by the last characters. */
  function Distance(a: string, b: string): nat
    decreases |a| + |b|
  {
    if a == [] then |b|
    else if b == [] then |a|
    else
      var a', b' := a[..|a| - 1], b[..|b| - 1];
      Min(Min(Distance(a', b) + 1, Distance(a, b') + 1),
          Distance(a', b') + if a[|a| - 1] == b[|b| - 1] then 0 else 1)
  }

  /** Row `i` of the distance table: the first `i` characters of `a` against every prefix of `b`. */
  ghost function TableRow(a: string, b: string, i: nat): seq<nat>
    requires i <= |a|
  {
    seq(|b| + 1, j requires 0 <= j <= |b| => Distance(a[..i], b[..j]))
  }

  /** A cell of the table from the cells above, to the left and diagonally before it. */
  lemma {:induction false} Cell(a: string, b: string, i: nat, j: nat)
    requires i < |a| && j < |b|
    ensures var row, next := TableRow(a, b, i), TableRow(a, b, i + 1);
            next[j + 1] == Min(Min(row[j + 1] + 1, next[j] + 1), row[j] + if a[i] == b[j] then 0 else 1)
  {
    assert a[..i + 1][..i] == a[..i] && b[..j + 1][..j] == b[..j];
  }

  lemma {:induction false} Edges(a: string, b: string)
    ensures TableRow(a, b, 0) == seq(|b| + 1, j => j)
    ensures forall i :: 0 <= i <= |a| ==> TableRow(a, b, i)[0] == i
    ensures TableRow(a, b, |a|)[|b|] == Distance(a, b)
  {
    assert a[..|a|] == a && b[..|b|] == b;
  }

  /** Two rows of the table, swapped after each character of `a`. */
  method EditDistance(a: string, b: string) returns (d: nat)
    ensures d == Distance(a, b)
  {
    if a == [] {
      return |b|;
    }
    if b == [] {
      return |a|;
    }
    Edges(a, b);
    var prev := new nat[|b| + 1](j => j);
    var curr := new nat[|b| + 1](_ => 0);
    for i := 0 to |a|
      invariant prev != curr && fresh(prev) && fresh(curr)
      invariant prev.Length == curr.Length == |b| + 1
      invariant forall k :: 0 <= k <= |b| ==> prev[k] == TableRow(a, b, i)[k]
    {
      ghost var row, next := TableRow(a, b, i), TableRow(a, b, i + 1);
      curr[0] := i + 1;
      for j := 0 to |b|
        modifies curr
        invariant forall k :: 0 <= k <= j ==> curr[k] == next[k]
      {
        var cost := if a[i] == b[j] then 0 else 1;
        Cell(a, b, i, j);
        assert prev[j + 1] == row[j + 1] && prev[j] == row[j];
        curr[j + 1] := Min(Min(prev[j + 1] + 1, curr[j] + 1), prev[j] + cost);
      }
      prev, curr := curr, prev;
    }
    d := prev[|b|];
  }

  // ----- the distance is the least cost of an edit script -----

  datatype Edit = Keep | Substitute(c: char) | Insert(c: char) | Delete

  /** What a script turns `a` into, if it fits `a`. */
  function Apply(script: seq<Edit>, a: string): Option<string>
    decreases |script|
  {
    if script == [] then if a == [] then Some("") else None
    else
      var init := script[..|script| - 1];
      match script[|script| - 1]
      case Insert(c) => Append(Apply(init, a), [c])
      case Delete => if a == [] then None else Apply(init, a[..|a| - 1])
      case Keep => if a == [] then None else Append(Apply(init, a[..|a| - 1]), [a[|a| - 1]])
      case Substitute(c) => if a == [] then None else Append(Apply(init, a[..|a| - 1]), [c])
  }

  function Append(s: Option<string>, t: string): Option<string> {
    match s
    case Some(x) => Some(x + t)
    case None => None
  }

  function Cost(script: seq<Edit>): nat {
    if script == [] then 0 else Cost(script[..|script| - 1]) + if script[|script| - 1].Keep? then 0 else 1
  }

  lemma {:induction false} NoScriptIsCheaper(script: seq<Edit>, a: string, b: string)
    requires Apply(script, a) == Some(b)
    ensures Distance(a, b) <= Cost(script)
    decreases |script|
  {
    if script != [] {
      var init, last := script[..|script| - 1], script[|script| - 1];
      var a' := if a == [] then a else a[..|a| - 1];
      var before := if last.Insert? then Apply(init, a) else Apply(init, a');
      NoScriptIsCheaper(init, if last.Insert? then a else a', before.value);
      if !last.Delete? {
        assert b[..|b| - 1] == before.value;
      }
    }
  }

  lemma {:induction false} SomeScriptIsAsCheap(a: string, b: string) returns (script: seq<Edit>)
    ensures Apply(script, a) == Some(b) && Cost(script) == Distance(a, b)
    decreases |a| + |b|
  {
    if a == [] && b == [] {
      script := [];
    } else {
      var init, last;
      if a == [] || (b != [] && Distance(a, b) == Distance(a, b[..|b| - 1]) + 1) {
        init := SomeScriptIsAsCheap(a, b[..|b| - 1]);
        last := Insert(b[|b| - 1]);
        assert b == b[..|b| - 1] + [b[|b| - 1]];
      } else if b == [] || Distance(a, b) == Distance(a[..|a| - 1], b) + 1 {
        init := SomeScriptIsAsCheap(a[..|a| - 1], b);
        last := Delete;
      } else {
        init := SomeScriptIsAsCheap(a[..|a| - 1], b[..|b| - 1]);
        last := if a[|a| - 1] == b[|b| - 1] then Keep else Substitute(b[|b| - 1]);
        assert b == b[..|b| - 1] + [b[|b| - 1]];
      }
      script := init + [last];
      assert script[..|script| - 1] == init;
    }
  }

  /** Main result: the distance is the least number of insertions, deletions and substitutions from `a` to `b`. */
  lemma {:induction false} DistanceIsLeastCost(a: string, b: string)
    ensures exists script :: Apply(script, a) == Some(b) && Cost(script) == Distance(a, b)
    ensures forall script :: Apply(script, a) == Some(b) ==> Distance(a, b) <= Cost(script)
  {
    var cheapest := SomeScriptIsAsCheap(a, b);
    forall script | Apply(script, a) == Some(b) ensures Distance(a, b) <= Cost(script) {
      NoScriptIsCheaper(script, a, b);
    }
  }

  // ----- the closest field -----

  function AbsDiff(a: nat, b: nat): nat {
    if a >= b then a - b else b - a
  }

  lemma {:induction false} LengthsBoundDistance(a: string, b: string)
    ensures AbsDiff(|a|, |b|) <= Distance(a, b)
    decreases |a| + |b|
  {
    if a != [] && b != [] {
      LengthsBoundDistance(a[..|a| - 1], b);
      LengthsBoundDistance(a, b[..|b| - 1]);
      LengthsBoundDistance(a[..|a| - 1], b[..|b| - 1]);
    }
  }

  /** The fields that pass the length filter, with their distances, kept when the distance is 1 or 2. */
  function Candidates(fields: seq<string>, key: string, keyLen: nat): seq<(string, nat)> {
    if fields == [] then []
    else
      var rest := Candidates(fields[1..], key, keyLen);
      var d := Distance(key, fields[0]);
      if AbsDiff(|fields[0]|, keyLen) <= 2 && 0 < d <= 2 then [(fields[0], d)] + rest else rest
  }

  /** The first candidate of least distance. */
  function MinByDistance(candidates: seq<(string, nat)>): Option<(string, nat)> {
    if candidates == [] then None
    else
      match MinByDistance(candidates[1..])
      case Some(best) => if candidates[0].1 <= best.1 then Some(candidates[0]) else Some(best)
      case None => Some(candidates[0])
  }

  function SuggestField(fields: seq<string>, key: string, keyLen: nat): Option<string> {
    match MinByDistance(Candidates(fields, key, keyLen))
    case Some((field, _)) => Some(field)
    case None => None
  }

  predicate IsClose(key: string, field: string) {
    1 <= Distance(key, field) <= 2
  }

  /** Field `i` is the first of least distance among all close fields, whatever their length. */
  ghost predicate FirstClosest(fields: seq<string>, key: string, i: nat) {
    && i < |fields| && IsClose(key, fields[i])
    && forall j :: 0 <= j < |fields| && IsClose(key, fields[j]) ==>
         Distance(key, fields[i]) < Distance(key, fields[j])
         || (Distance(key, fields[i]) == Distance(key, fields[j]) && i <= j)
  }

  lemma {:induction false} BestOfAll(fields: seq<string>, key: string) returns (i: nat)
    ensures var best := MinByDistance(Candidates(fields, key, |key|));
            && (best.None? ==> forall j :: 0 <= j < |fields| ==> !IsClose(key, fields[j]))
            && (best.Some? ==> FirstClosest(fields, key, i) && best.value == (fields[i], Distance(key, fields[i])))
  {
    i := 0;
    if fields != [] {
      LengthsBoundDistance(key, fields[0]);
      var k := BestOfAll(fields[1..], key);
      var rest := MinByDistance(Candidates(fields[1..], key, |key|));
      assert forall j :: 1 <= j < |fields| ==> fields[j] == fields[1..][j - 1];
      if IsClose(key, fields[0]) {
        var d := Distance(key, fields[0]);
        assert Candidates(fields, key, |key|) == [(fields[0], d)] + Candidates(fields[1..], key, |key|);
        if rest.Some? && rest.value.1 < d {
          i := k + 1;
        }
      } else if rest.Some? {
        i := k + 1;
      }
    }
  }

  /**
   The suggestion is the first closest field among all fields at distance 1 or 2, and there is none only when no field
   is that close: the length filter loses no candidate.
   */
  lemma {:induction false} SuggestionIsFirstClosest(fields: seq<string>, key: string, field: string)
    ensures SuggestField(fields, key, |key|) == Some(field)
            <==> exists i: nat :: FirstClosest(fields, key, i) && fields[i] == field
    ensures SuggestField(fields, key, |key|) == None <==> forall i :: 0 <= i < |fields| ==> !IsClose(key, fields[i])
  {
    var i := BestOfAll(fields, key);
    assert forall j: nat, k: nat :: FirstClosest(fields, key, j) && FirstClosest(fields, key, k) ==> j == k;
  }
}
