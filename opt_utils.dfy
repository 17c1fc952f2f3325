/**
 * The OLLIR generator's helpers: the counters that number temporaries and
 * labels, and the spelling of Jmm types as OLLIR type suffixes.
 *
 * Each counter is an accumulator map (how many times each prefix was added).
 * A name is the prefix followed by the count before the call, so the first
 * temporary is "tmp0". Temporaries and the four label kinds have a map each.
 */
module OptUtils {
  import opened Ast
  import opened JavaInt

  /** An accumulator map: how many times each key was added. */
  type Counts = map<string, nat>

  function Count(m: Counts, k: string): nat {
    if k in m then m[k] else 0
  }

  /** `add(prefix) - 1` and the name it makes: the prefix and the count before the call; the map counts one more. */
  function Issue(m: Counts, p: string): (r: (string, Counts))
    ensures Count(r.1, p) == Count(m, p) + 1 && forall k :: k != p ==> Count(r.1, k) == Count(m, k)
  {
    (p + NatToDigits(Count(m, p)), m[p := Count(m, p) + 1])
  }

  /** The names `n` successive calls with prefix `p` return, and the map after them. */
  function IssueMany(m: Counts, p: string, n: nat): (r: (seq<string>, Counts))
    ensures |r.0| == n
    decreases n
  {
    if n == 0 then ([], m)
    else
      var front := IssueMany(m, p, n - 1);
      var last := Issue(front.1, p);
      (front.0 + [last.0], last.1)
  }

  /** After `n` calls the count of `p` is `n` higher, and the `i`-th name carries the count before the calls plus `i`. */
  lemma {:induction false} IssueManyNames(m: Counts, p: string, n: nat)
    ensures Count(IssueMany(m, p, n).1, p) == Count(m, p) + n
    ensures forall i :: 0 <= i < n ==> IssueMany(m, p, n).0[i] == p + NatToDigits(Count(m, p) + i)
  {
    if n > 0 {
      IssueManyNames(m, p, n - 1);
    }
  }

  /** Successive calls with one prefix never return the same name twice. */
  lemma IssueManyDistinct(m: Counts, p: string, n: nat)
    ensures forall i, j :: 0 <= i < j < n ==> IssueMany(m, p, n).0[i] != IssueMany(m, p, n).0[j]
  {
    IssueManyNames(m, p, n);
    forall i, j | 0 <= i < j < n ensures IssueMany(m, p, n).0[i] != IssueMany(m, p, n).0[j] {
      var a, b := p + NatToDigits(Count(m, p) + i), p + NatToDigits(Count(m, p) + j);
      if a == b {
        assert a[|p|..] == NatToDigits(Count(m, p) + i) && b[|p|..] == NatToDigits(Count(m, p) + j);
        NatToDigitsInjective(Count(m, p) + i, Count(m, p) + j);
      }
    }
  }

  /** The five accumulator maps of one generator. */
  datatype Counters = Counters(temps: Counts, thens: Counts, ends: Counts, whiles: Counts, ands: Counts)

  function NoCounters(): Counters {
    Counters(map[], map[], map[], map[], map[])
  }

  /** `nextTemp(prefix)`. */
  function TakeTemp(c: Counters, p: string): (r: (string, Counters)) {
    var (s, m) := Issue(c.temps, p); (s, c.(temps := m))
  }

  /** `nextThenLabel(prefix)`. */
  function TakeThen(c: Counters, p: string): (r: (string, Counters)) {
    var (s, m) := Issue(c.thens, p); (s, c.(thens := m))
  }

  /** `nextEndLabel(prefix)`. */
  function TakeEnd(c: Counters, p: string): (r: (string, Counters)) {
    var (s, m) := Issue(c.ends, p); (s, c.(ends := m))
  }

  /** `nextWhileLabel(prefix)`. */
  function TakeWhile(c: Counters, p: string): (r: (string, Counters)) {
    var (s, m) := Issue(c.whiles, p); (s, c.(whiles := m))
  }

  /** `nextAndLabel(prefix)`. */
  function TakeAnd(c: Counters, p: string): (r: (string, Counters)) {
    var (s, m) := Issue(c.ands, p); (s, c.(ands := m))
  }

  /** The accumulator map's `remove`: one count less for the key, nothing when it has none. */
  function Decrement(m: Counts, k: string): (r: Counts)
    ensures Count(r, k) == if Count(m, k) > 0 then Count(m, k) - 1 else 0
    ensures forall j :: j != k ==> Count(r, j) == Count(m, j)
  {
    if Count(m, k) > 0 then m[k := Count(m, k) - 1] else m
  }

  /** `revertTemp(prefix)`: it tests the count of `prefix` but takes one from the "tmp" count. */
  function Reverted(c: Counters, p: string): (r: Counters) {
    if Count(c.temps, p) > 0 then c.(temps := Decrement(c.temps, "tmp")) else c
  }

  /** Reverting a temporary of another prefix gives back a "tmp" name issued earlier, and leaves that prefix's count as it was. */
  lemma RevertOtherPrefix(c: Counters, p: string)
    requires p != "tmp" && Count(c.temps, p) > 0 && Count(c.temps, "tmp") > 0
    ensures Count(Reverted(c, p).temps, p) == Count(c.temps, p)
    ensures TakeTemp(Reverted(c, p), "tmp").0 == "tmp" + NatToDigits(Count(c.temps, "tmp") - 1)
  {
  }

  /** Reverting right after `nextTemp()` makes the next `nextTemp()` return the same name again. */
  lemma RevertUndoesTemp(c: Counters)
    ensures TakeTemp(Reverted(TakeTemp(c, "tmp").1, "tmp"), "tmp").0 == TakeTemp(c, "tmp").0
  {
  }

  /**
   * No count of the generator's default prefixes went down from `a` to `b`:
   * "tmp", "then", "endif", "while" and "andTmp".
   */
  predicate Grows(a: Counters, b: Counters) {
    Count(a.temps, "tmp") <= Count(b.temps, "tmp")
    && Count(a.thens, "then") <= Count(b.thens, "then")
    && Count(a.ends, "endif") <= Count(b.ends, "endif")
    && Count(a.whiles, "while") <= Count(b.whiles, "while")
    && Count(a.ands, "andTmp") <= Count(b.ands, "andTmp")
  }

  /** Each kind of name is taken from its own map, and the others are left alone. */
  lemma TakeGrows(c: Counters, p: string)
    ensures Grows(c, TakeTemp(c, p).1) && TakeTemp(c, p).1 == c.(temps := TakeTemp(c, p).1.temps)
    ensures Grows(c, TakeThen(c, p).1) && TakeThen(c, p).1 == c.(thens := TakeThen(c, p).1.thens)
    ensures Grows(c, TakeEnd(c, p).1) && TakeEnd(c, p).1 == c.(ends := TakeEnd(c, p).1.ends)
    ensures Grows(c, TakeWhile(c, p).1) && TakeWhile(c, p).1 == c.(whiles := TakeWhile(c, p).1.whiles)
    ensures Grows(c, TakeAnd(c, p).1) && TakeAnd(c, p).1 == c.(ands := TakeAnd(c, p).1.ands)
  {
  }

  /** A name taken at least as late as another, from a map whose count grew past it, differs from it. */
  lemma LaterNameDiffers(p: string, a: nat, b: nat)
    requires a < b
    ensures p + NatToDigits(a) != p + NatToDigits(b)
  {
    if p + NatToDigits(a) == p + NatToDigits(b) {
      assert (p + NatToDigits(a))[|p|..] == NatToDigits(a);
      assert (p + NatToDigits(b))[|p|..] == NatToDigits(b);
      NatToDigitsInjective(a, b);
    }
  }

  /** `OptUtils`: the five maps as fields, updated in place by each call. */
  class Utils {
    var temporaries: Counts
    var thenLabels: Counts
    var endLabels: Counts
    var whileLabels: Counts
    var andLabels: Counts

    function State(): Counters
      reads this
    {
      Counters(temporaries, thenLabels, endLabels, whileLabels, andLabels)
    }

    constructor ()
      ensures State() == NoCounters()
    {
      temporaries, thenLabels, endLabels, whileLabels, andLabels := map[], map[], map[], map[], map[];
    }

    method NextTemp(prefix: string) returns (r: string)
      modifies this`temporaries
      ensures (r, State()) == TakeTemp(old(State()), prefix)
    {
      var n := Count(temporaries, prefix);
      temporaries := temporaries[prefix := n + 1];
      r := prefix + NatToDigits(n);
    }

    method RevertTemp(prefix: string)
      modifies this`temporaries
      ensures State() == Reverted(old(State()), prefix)
    {
      var currentCount := Count(temporaries, prefix);
      if currentCount > 0 {
        temporaries := Decrement(temporaries, "tmp");
      }
    }

    method NextThenLabel(prefix: string) returns (r: string)
      modifies this`thenLabels
      ensures (r, State()) == TakeThen(old(State()), prefix)
    {
      var n := Count(thenLabels, prefix);
      thenLabels := thenLabels[prefix := n + 1];
      r := prefix + NatToDigits(n);
    }

    method NextEndLabel(prefix: string) returns (r: string)
      modifies this`endLabels
      ensures (r, State()) == TakeEnd(old(State()), prefix)
    {
      var n := Count(endLabels, prefix);
      endLabels := endLabels[prefix := n + 1];
      r := prefix + NatToDigits(n);
    }

    method NextWhileLabel(prefix: string) returns (r: string)
      modifies this`whileLabels
      ensures (r, State()) == TakeWhile(old(State()), prefix)
    {
      var n := Count(whileLabels, prefix);
      whileLabels := whileLabels[prefix := n + 1];
      r := prefix + NatToDigits(n);
    }

    method NextAndLabel(prefix: string) returns (r: string)
      modifies this`andLabels
      ensures (r, State()) == TakeAnd(old(State()), prefix)
    {
      var n := Count(andLabels, prefix);
      andLabels := andLabels[prefix := n + 1];
      r := prefix + NatToDigits(n);
    }
  }

  // ---- types ----

  /** The OLLIR spelling of a type name: the four built-in names have their own, any other name stands for itself. */
  function OllirName(name: string): (r: string) {
    if name == "int" then "i32"
    else if name == "boolean" then "bool"
    else if name == "void" then "V"
    else name
  }

  /** `toOllirType(Type)`: "." and the name's spelling, after ".array" for an array or vararg type. */
  function ToOllirType(t: Type): (r: string)
    ensures |r| >= 1 && r[0] == '.'
  {
    (if t.isArray || t.isVararg then ".array" else "") + "." + OllirName(t.name)
  }

  /** The parts of an OLLIR type suffix: whether it has the ".array" prefix, and the element spelling. */
  function SplitOllirType(s: string): (r: (bool, string))
    requires |s| >= 1
  {
    if |s| >= 7 && s[..7] == ".array." then (true, s[7..]) else (false, s[1..])
  }

  /** The suffix says whether the type is an array or vararg, and spells its element type, for any name without a '.'. */
  lemma OllirTypeParts(t: Type)
    requires forall i :: 0 <= i < |t.name| ==> t.name[i] != '.'
    ensures SplitOllirType(ToOllirType(t)) == (t.isArray || t.isVararg, OllirName(t.name))
  {
    var r := ToOllirType(t);
    if !(t.isArray || t.isVararg) && |r| >= 7 {
      assert r[6] == OllirName(t.name)[5];
      if t.name == "int" || t.name == "boolean" || t.name == "void" {
      } else {
        assert t.name[5] != '.';
      }
    }
  }

  /** Two names without a '.' have different spellings unless one of them is the OLLIR spelling of a built-in name. */
  lemma OllirNameInjective(a: string, b: string)
    requires a != b && OllirName(a) == OllirName(b)
    ensures a in {"i32", "bool", "V"} || b in {"i32", "bool", "V"}
  {
  }
}
