/** Word-level edit distance with backtrace: `align` in scripts/wer.mjs. */
module Wer {

  /** One step of an edit script that turns the reference into the hypothesis. */
  datatype Edit = Keep | Substitute | Delete | Insert

  /**
   * The script consumes the first i words of ref, produces the first j words of hyp, keeps equal words and substitutes
   * different ones.
   */
  predicate Turns(script: seq<Edit>, ref: seq<string>, hyp: seq<string>, i: nat, j: nat)
    requires i <= |ref| && j <= |hyp|
    decreases |script|
  {
    if script == [] then i == 0 && j == 0
    else
      var front := script[..|script| - 1];
      match script[|script| - 1]
      case Keep => i > 0 && j > 0 && ref[i - 1] == hyp[j - 1] && Turns(front, ref, hyp, i - 1, j - 1)
      case Substitute => i > 0 && j > 0 && ref[i - 1] != hyp[j - 1] && Turns(front, ref, hyp, i - 1, j - 1)
      case Delete => i > 0 && Turns(front, ref, hyp, i - 1, j)
      case Insert => j > 0 && Turns(front, ref, hyp, i, j - 1)
  }

  predicate IsScript(script: seq<Edit>, ref: seq<string>, hyp: seq<string>) {
    Turns(script, ref, hyp, |ref|, |hyp|)
  }

  function Count(script: seq<Edit>, e: Edit): (c: nat)
    ensures c <= |script|
  {
    if script == [] then 0 else Count(script[..|script| - 1], e) + if script[|script| - 1] == e then 1 else 0
  }

  function Cost(script: seq<Edit>): nat {
    Count(script, Substitute) + Count(script, Delete) + Count(script, Insert)
  }

  function Min(a: nat, b: nat): nat { if a <= b then a else b }

  function Differ(ref: seq<string>, hyp: seq<string>, i: nat, j: nat): nat
    requires 0 < i <= |ref| && 0 < j <= |hyp|
  {
    if ref[i - 1] == hyp[j - 1] then 0 else 1
  }

  /** The recurrence of the table, for the first i words of ref and the first j of hyp. */
  function PrefixDistance(ref: seq<string>, hyp: seq<string>, i: nat, j: nat): (d: nat)
    requires i <= |ref| && j <= |hyp|
  {
    if i == 0 then j
    else if j == 0 then i
    else
      Min(PrefixDistance(ref, hyp, i - 1, j - 1) + Differ(ref, hyp, i, j),
          Min(PrefixDistance(ref, hyp, i - 1, j) + 1, PrefixDistance(ref, hyp, i, j - 1) + 1))
  }

  function Distance(ref: seq<string>, hyp: seq<string>): nat { PrefixDistance(ref, hyp, |ref|, |hyp|) }

  /** No edit script is cheaper. */
  lemma {:induction false} PrefixIsLowerBound(script: seq<Edit>, ref: seq<string>, hyp: seq<string>, i: nat, j: nat)
    requires i <= |ref| && j <= |hyp| && Turns(script, ref, hyp, i, j)
    ensures PrefixDistance(ref, hyp, i, j) <= Cost(script)
    decreases |script|
  {
    if script != [] {
      var front := script[..|script| - 1];
      match script[|script| - 1] {
        case Keep => PrefixIsLowerBound(front, ref, hyp, i - 1, j - 1);
        case Substitute => PrefixIsLowerBound(front, ref, hyp, i - 1, j - 1);
        case Delete => PrefixIsLowerBound(front, ref, hyp, i - 1, j);
        case Insert => PrefixIsLowerBound(front, ref, hyp, i, j - 1);
      }
    }
  }

  lemma DistanceIsLowerBound(script: seq<Edit>, ref: seq<string>, hyp: seq<string>)
    requires IsScript(script, ref, hyp)
    ensures Distance(ref, hyp) <= Cost(script)
  {
    PrefixIsLowerBound(script, ref, hyp, |ref|, |hyp|);
  }

  lemma {:induction false} TurnsBalances(script: seq<Edit>, ref: seq<string>, hyp: seq<string>, i: nat, j: nat)
    requires i <= |ref| && j <= |hyp| && Turns(script, ref, hyp, i, j)
    ensures i - Count(script, Delete) == j - Count(script, Insert) == Count(script, Keep) + Count(script, Substitute)
    decreases |script|
  {
    if script != [] {
      var front := script[..|script| - 1];
      match script[|script| - 1] {
        case Keep => TurnsBalances(front, ref, hyp, i - 1, j - 1);
        case Substitute => TurnsBalances(front, ref, hyp, i - 1, j - 1);
        case Delete => TurnsBalances(front, ref, hyp, i - 1, j);
        case Insert => TurnsBalances(front, ref, hyp, i, j - 1);
      }
    }
  }

  /** A script balances: what is left of both texts after deletions and insertions is equally long. */
  lemma ScriptBalances(script: seq<Edit>, ref: seq<string>, hyp: seq<string>)
    requires IsScript(script, ref, hyp)
    ensures |ref| - Count(script, Delete) == |hyp| - Count(script, Insert)
    ensures |ref| - Count(script, Delete) == Count(script, Keep) + Count(script, Substitute)
  {
    TurnsBalances(script, ref, hyp, |ref|, |hyp|);
  }

  // The script the backtrace finds

  /** Match and substitution are preferred to deletion, and that to insertion. */
  function Rank(e: Edit): nat {
    match e
    case Keep => 0
    case Substitute => 0
    case Delete => 1
    case Insert => 2
  }

  /** Read from their ends, a is the preferred one at the first difference. */
  predicate Before(a: seq<Edit>, b: seq<Edit>)
    decreases |a|
  {
    && a != [] && b != []
    && var x, y := a[|a| - 1], b[|b| - 1];
       if x == y then Before(a[..|a| - 1], b[..|b| - 1]) else Rank(x) < Rank(y)
  }

  predicate IsOptimal(script: seq<Edit>, ref: seq<string>, hyp: seq<string>, i: nat, j: nat)
    requires i <= |ref| && j <= |hyp|
  {
    Turns(script, ref, hyp, i, j) && Cost(script) == PrefixDistance(ref, hyp, i, j)
  }

  /** A cheapest script, and before all other cheapest ones. */
  ghost predicate IsChosen(script: seq<Edit>, ref: seq<string>, hyp: seq<string>, i: nat, j: nat)
    requires i <= |ref| && j <= |hyp|
  {
    && IsOptimal(script, ref, hyp, i, j)
    && forall other | IsOptimal(other, ref, hyp, i, j) :: other == script || Before(script, other)
  }

  lemma {:induction false} NotBothBefore(a: seq<Edit>, b: seq<Edit>)
    ensures !(Before(a, b) && Before(b, a))
    decreases |a|
  {
    if a != [] && b != [] {
      NotBothBefore(a[..|a| - 1], b[..|b| - 1]);
    }
  }

  /** So the three counts are determined by the two texts. */
  lemma ChosenIsUnique(a: seq<Edit>, b: seq<Edit>, ref: seq<string>, hyp: seq<string>)
    requires IsChosen(a, ref, hyp, |ref|, |hyp|) && IsChosen(b, ref, hyp, |ref|, |hyp|)
    ensures a == b
  {
    NotBothBefore(a, b);
  }

  /** What is left of i words of the reference before an edit, and of j words of the hypothesis. */
  function RefBefore(e: Edit, i: nat): nat
    requires e != Insert ==> i > 0
  {
    if e == Insert then i else i - 1
  }

  function HypBefore(e: Edit, j: nat): nat
    requires e != Delete ==> j > 0
  {
    if e == Delete then j else j - 1
  }

  function Price(e: Edit): nat { if e == Keep then 0 else 1 }

  /** e can be the last edit of a script. */
  predicate Fits(e: Edit, ref: seq<string>, hyp: seq<string>, i: nat, j: nat)
    requires i <= |ref| && j <= |hyp|
  {
    && (e != Insert ==> i > 0) && (e != Delete ==> j > 0)
    && (e == Keep ==> ref[i - 1] == hyp[j - 1])
    && (e == Substitute ==> ref[i - 1] != hyp[j - 1])
  }

  /** e can be the last edit of a cheapest script. */
  predicate FitsBest(e: Edit, ref: seq<string>, hyp: seq<string>, i: nat, j: nat)
    requires i <= |ref| && j <= |hyp|
  {
    && Fits(e, ref, hyp, i, j)
    && PrefixDistance(ref, hyp, i, j) == PrefixDistance(ref, hyp, RefBefore(e, i), HypBefore(e, j)) + Price(e)
  }

  /** The edit that the table calls for at (i, j). */
  function LastEdit(ref: seq<string>, hyp: seq<string>, i: nat, j: nat): (e: Edit)
    requires i <= |ref| && j <= |hyp| && (i > 0 || j > 0)
    ensures (e != Insert ==> i > 0) && (e != Delete ==> j > 0)
  {
    var here := PrefixDistance(ref, hyp, i, j);
    if i > 0 && j > 0 && ref[i - 1] == hyp[j - 1] && here == PrefixDistance(ref, hyp, i - 1, j - 1) then Keep
    else if i > 0 && j > 0 && here == PrefixDistance(ref, hyp, i - 1, j - 1) + 1 then Substitute
    else if i > 0 && here == PrefixDistance(ref, hyp, i - 1, j) + 1 then Delete
    else Insert
  }

  lemma LastEditFits(ref: seq<string>, hyp: seq<string>, i: nat, j: nat)
    requires i <= |ref| && j <= |hyp| && (i > 0 || j > 0)
    ensures FitsBest(LastEdit(ref, hyp, i, j), ref, hyp, i, j)
  {
  }

  /** Edit by edit from the end, the preferred one of those a cheapest script can have there. */
  function Preferred(ref: seq<string>, hyp: seq<string>, i: nat, j: nat): seq<Edit>
    requires i <= |ref| && j <= |hyp|
    decreases i + j
  {
    if i == 0 && j == 0 then [] else
    var e := LastEdit(ref, hyp, i, j);
    Preferred(ref, hyp, RefBefore(e, i), HypBefore(e, j)) + [e]
  }

  lemma {:induction false} CountOfOneMore(front: seq<Edit>, e: Edit)
    ensures Cost(front + [e]) == Cost(front) + Price(e)
    ensures forall x :: Count(front + [e], x) == Count(front, x) + if e == x then 1 else 0
  {
    assert (front + [e])[..|front|] == front;
  }

  lemma {:induction false} TurnsOfOneMore(front: seq<Edit>, e: Edit, ref: seq<string>, hyp: seq<string>, i: nat, j: nat)
    requires i <= |ref| && j <= |hyp|
    ensures Turns(front + [e], ref, hyp, i, j) <==>
            Fits(e, ref, hyp, i, j) && Turns(front, ref, hyp, RefBefore(e, i), HypBefore(e, j))
  {
    assert (front + [e])[..|front|] == front;
  }

  /** The cheapest scripts that end in e are the cheapest ones of what is left before it. */
  lemma {:induction false} OptimalOfOneMore(front: seq<Edit>, e: Edit, ref: seq<string>, hyp: seq<string>, i: nat, j: nat)
    requires i <= |ref| && j <= |hyp|
    ensures IsOptimal(front + [e], ref, hyp, i, j) <==>
            FitsBest(e, ref, hyp, i, j) && IsOptimal(front, ref, hyp, RefBefore(e, i), HypBefore(e, j))
  {
    CountOfOneMore(front, e);
    TurnsOfOneMore(front, e, ref, hyp, i, j);
    if Fits(e, ref, hyp, i, j) && Turns(front, ref, hyp, RefBefore(e, i), HypBefore(e, j)) {
      PrefixIsLowerBound(front, ref, hyp, RefBefore(e, i), HypBefore(e, j));
    }
  }

  /** The preferred script is the chosen one. */
  lemma {:induction false} PreferredIsChosen(ref: seq<string>, hyp: seq<string>, i: nat, j: nat)
    requires i <= |ref| && j <= |hyp|
    ensures IsChosen(Preferred(ref, hyp, i, j), ref, hyp, i, j)
    decreases i + j
  {
    if i == 0 && j == 0 {
      assert forall other | Turns(other, ref, hyp, 0, 0) :: other == [];
    } else {
      var e := LastEdit(ref, hyp, i, j);
      var front := Preferred(ref, hyp, RefBefore(e, i), HypBefore(e, j));
      LastEditFits(ref, hyp, i, j);
      PreferredIsChosen(ref, hyp, RefBefore(e, i), HypBefore(e, j));
      OptimalOfOneMore(front, e, ref, hyp, i, j);
      forall other | IsOptimal(other, ref, hyp, i, j)
        ensures other == front + [e] || Before(front + [e], other)
      {
        PreferredToOther(front, e, other, ref, hyp, i, j);
      }
    }
  }

  lemma {:induction false} PreferredToOther(front: seq<Edit>, e: Edit, other: seq<Edit>,
      ref: seq<string>, hyp: seq<string>, i: nat, j: nat)
    requires i <= |ref| && j <= |hyp| && (i > 0 || j > 0) && e == LastEdit(ref, hyp, i, j)
    requires IsChosen(front, ref, hyp, RefBefore(e, i), HypBefore(e, j)) && IsOptimal(other, ref, hyp, i, j)
    ensures other == front + [e] || Before(front + [e], other)
  {
    var front', e' := other[..|other| - 1], other[|other| - 1];
    assert other == front' + [e'];
    OptimalOfOneMore(front', e', ref, hyp, i, j);
    BeforeOfOneMore(front, e, front', e');
    if e' != e {
      ComesFirst(e, e', ref, hyp, i, j);
    }
  }

  lemma BeforeOfOneMore(front: seq<Edit>, e: Edit, front': seq<Edit>, e': Edit)
    ensures Before(front + [e], front' + [e']) <==> if e == e' then Before(front, front') else Rank(e) < Rank(e')
  {
    assert (front + [e])[..|front|] == front && (front' + [e'])[..|front'|] == front';
  }

  lemma ComesFirst(e: Edit, e': Edit, ref: seq<string>, hyp: seq<string>, i: nat, j: nat)
    requires i <= |ref| && j <= |hyp| && (i > 0 || j > 0)
    requires e == LastEdit(ref, hyp, i, j) && FitsBest(e', ref, hyp, i, j) && e' != e
    ensures Rank(e) < Rank(e')
  {
  }

  // align

  /**
   * Fills the table, then walks it back from its corner. The counts returned are those of an actual edit script from
   * ref to hyp. No edit script from ref to hyp has fewer errors, and of those with as few it is the preferred one.
   */
  method Align(ref: seq<string>, hyp: seq<string>) returns (s: nat, d: nat, ins: nat)
    ensures s + d + ins == Distance(ref, hyp)
    ensures forall script | IsScript(script, ref, hyp) :: s + d + ins <= Cost(script)
    ensures exists script ::
      && IsChosen(script, ref, hyp, |ref|, |hyp|) && Count(script, Substitute) == s
      && Count(script, Delete) == d && Count(script, Insert) == ins
    ensures |ref| - d == |hyp| - ins
  {
    var dp := FillTable(ref, hyp);
    s, d, ins := Backtrace(ref, hyp, dp);
    ghost var script := Preferred(ref, hyp, |ref|, |hyp|);
    PreferredIsChosen(ref, hyp, |ref|, |hyp|);
    forall other | IsScript(other, ref, hyp)
      ensures s + d + ins <= Cost(other)
    {
      DistanceIsLowerBound(other, ref, hyp);
    }
    ScriptBalances(script, ref, hyp);
  }

  ghost predicate IsTable(dp: array2<nat>, ref: seq<string>, hyp: seq<string>)
    reads dp
  {
    && dp.Length0 == |ref| + 1 && dp.Length1 == |hyp| + 1
    && forall i, j {:trigger dp[i, j]} | 0 <= i <= |ref| && 0 <= j <= |hyp| :: dp[i, j] == PrefixDistance(ref, hyp, i, j)
  }

  method FillTable(ref: seq<string>, hyp: seq<string>) returns (dp: array2<nat>)
    ensures fresh(dp) && IsTable(dp, ref, hyp)
  {
    dp := new nat[|ref| + 1, |hyp| + 1]((_, _) => 0);
    for i := 0 to |ref| + 1
      invariant forall k {:trigger dp[k, 0]} | 0 <= k < i :: dp[k, 0] == PrefixDistance(ref, hyp, k, 0)
    {
      dp[i, 0] := i;
    }
    for j := 0 to |hyp| + 1
      invariant forall k {:trigger dp[k, 0]} | 0 <= k <= |ref| :: dp[k, 0] == PrefixDistance(ref, hyp, k, 0)
      invariant forall l {:trigger dp[0, l]} | 0 <= l < j :: dp[0, l] == PrefixDistance(ref, hyp, 0, l)
    {
      dp[0, j] := j;
    }
    for i := 1 to |ref| + 1
      invariant forall k {:trigger dp[k, 0]} | 0 <= k <= |ref| :: dp[k, 0] == PrefixDistance(ref, hyp, k, 0)
      invariant forall k, l {:trigger dp[k, l]} | 0 <= k < i && 0 <= l <= |hyp| :: dp[k, l] == PrefixDistance(ref, hyp, k, l)
    {
      FillRow(ref, hyp, dp, i);
    }
  }

  method FillRow(ref: seq<string>, hyp: seq<string>, dp: array2<nat>, i: nat)
    requires dp.Length0 == |ref| + 1 && dp.Length1 == |hyp| + 1 && 0 < i <= |ref|
    requires forall k, l {:trigger dp[k, l]} | 0 <= k < i && 0 <= l <= |hyp| :: dp[k, l] == PrefixDistance(ref, hyp, k, l)
    requires dp[i, 0] == PrefixDistance(ref, hyp, i, 0)
    modifies dp
    ensures forall l {:trigger dp[i, l]} | 0 <= l <= |hyp| :: dp[i, l] == PrefixDistance(ref, hyp, i, l)
    ensures forall k, l | 0 <= k <= |ref| && k != i && 0 <= l <= |hyp| :: dp[k, l] == old(dp[k, l])
  {
    for j := 1 to |hyp| + 1
      invariant forall k, l | 0 <= k <= |ref| && k != i && 0 <= l <= |hyp| :: dp[k, l] == old(dp[k, l])
      invariant forall l {:trigger dp[i, l]} | 0 <= l < j :: dp[i, l] == PrefixDistance(ref, hyp, i, l)
    {
      var sub := dp[i - 1, j - 1] + if ref[i - 1] == hyp[j - 1] then 0 else 1;
      dp[i, j] := Min(sub, Min(dp[i - 1, j] + 1, dp[i, j - 1] + 1));
    }
  }

  /** How many edits of a kind the preferred script has before (i, j). */
  function Tally(e: Edit, ref: seq<string>, hyp: seq<string>, i: nat, j: nat): nat
    requires i <= |ref| && j <= |hyp|
  {
    Count(Preferred(ref, hyp, i, j), e)
  }

  /** Prefers match and substitution over deletion over insertion; never leaves the table. */
  method Backtrace(ref: seq<string>, hyp: seq<string>, dp: array2<nat>) returns (s: nat, d: nat, ins: nat)
    requires IsTable(dp, ref, hyp)
    ensures s == Tally(Substitute, ref, hyp, |ref|, |hyp|)
    ensures d == Tally(Delete, ref, hyp, |ref|, |hyp|)
    ensures ins == Tally(Insert, ref, hyp, |ref|, |hyp|)
  {
    var i: nat, j: nat := |ref|, |hyp|;
    s, d, ins := 0, 0, 0;
    while i > 0 || j > 0
      invariant i <= |ref| && j <= |hyp|
      invariant s + Tally(Substitute, ref, hyp, i, j) == Tally(Substitute, ref, hyp, |ref|, |hyp|)
      invariant d + Tally(Delete, ref, hyp, i, j) == Tally(Delete, ref, hyp, |ref|, |hyp|)
      invariant ins + Tally(Insert, ref, hyp, i, j) == Tally(Insert, ref, hyp, |ref|, |hyp|)
      decreases i + j
    {
      OneLess(LastEdit(ref, hyp, i, j), ref, hyp, i, j);
      if i > 0 && j > 0 && ref[i - 1] == hyp[j - 1] && dp[i, j] == dp[i - 1, j - 1] {
        i, j := i - 1, j - 1;
      } else if i > 0 && j > 0 && dp[i, j] == dp[i - 1, j - 1] + 1 {
        s := s + 1;
        i, j := i - 1, j - 1;
      } else if i > 0 && dp[i, j] == dp[i - 1, j] + 1 {
        d := d + 1;
        i := i - 1;
      } else {
        ins := ins + 1;
        j := j - 1;
      }
    }
  }

  lemma {:induction false} OneLess(e: Edit, ref: seq<string>, hyp: seq<string>, i: nat, j: nat)
    requires i <= |ref| && j <= |hyp| && (i > 0 || j > 0) && e == LastEdit(ref, hyp, i, j)
    ensures forall x {:trigger Tally(x, ref, hyp, i, j)} ::
      Tally(x, ref, hyp, i, j) == Tally(x, ref, hyp, RefBefore(e, i), HypBefore(e, j)) + (if x == e then 1 else 0)
  {
    CountOfOneMore(Preferred(ref, hyp, RefBefore(e, i), HypBefore(e, j)), e);
  }
}
