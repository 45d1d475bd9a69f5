/**
 Text as the program sees it: sequences of UTF-16 code units, with the few
 string operations the modelled files share.
 */
module Texts {

  type Unit = u: int | 0 <= u < 0x10000
  type Text = seq<Unit>

  datatype Option<+T> = None | Some(value: T)

  /** The text of a literal. */
  function Lit(s: string): (t: Text)
    ensures |t| == |s|
    ensures forall i :: 0 <= i < |s| && s[i] as int < 0x10000 ==> t[i] == s[i] as int
  {
    seq(|s|, i requires 0 <= i < |s| => if s[i] as int < 0x10000 then s[i] as int else 0xFFFD)
  }

  predicate IsDigit(u: Unit) { 0x30 <= u <= 0x39 }

  predicate IsHexDigit(u: Unit) { 0x30 <= u <= 0x39 || 0x41 <= u <= 0x46 || 0x61 <= u <= 0x66 }

  predicate IsLetter(u: Unit) { 0x41 <= u <= 0x5A || 0x61 <= u <= 0x7A }

  /** `\w` */
  predicate IsWord(u: Unit) { IsDigit(u) || IsLetter(u) || u == 0x5F }

  /** `\s`, and what `trim` strips. */
  predicate IsSpace(u: Unit) {
    || 0x09 <= u <= 0x0D
    || u == 0x20
    || u == 0xA0
    || u == 0x1680
    || 0x2000 <= u <= 0x200A
    || u == 0x2028
    || u == 0x2029
    || u == 0x202F
    || u == 0x205F
    || u == 0x3000
    || u == 0xFEFF
  }

  /** What `.` does not match in a regular expression without the `s` flag. */
  predicate IsLineTerminator(u: Unit) { u == 0x0A || u == 0x0D || u == 0x2028 || u == 0x2029 }

  function LowerUnit(u: Unit): Unit {
    if 0x41 <= u <= 0x5A then u + 32 else u
  }

  /** Lower-casing, restricted to the ASCII letters. */
  function Lower(t: Text): (r: Text)
    ensures |r| == |t|
    ensures forall i :: 0 <= i < |t| ==> r[i] == LowerUnit(t[i])
  {
    seq(|t|, i requires 0 <= i < |t| => LowerUnit(t[i]))
  }

  function UpperUnit(u: Unit): Unit {
    if 0x61 <= u <= 0x7A then u - 32 else u
  }

  function Upper(t: Text): (r: Text)
    ensures |r| == |t|
    ensures forall i :: 0 <= i < |t| ==> r[i] == UpperUnit(t[i])
  {
    seq(|t|, i requires 0 <= i < |t| => UpperUnit(t[i]))
  }

  /** Does `t` start with `word`, a lower-case literal, ignoring ASCII case? */
  predicate StartsWithFold(t: Text, word: Text) {
    |word| <= |t| && forall i :: 0 <= i < |word| ==> LowerUnit(t[i]) == word[i]
  }

  function TrimStart(t: Text): (r: Text)
    ensures |r| <= |t| && r == t[|t| - |r|..]
    ensures forall i :: 0 <= i < |t| - |r| ==> IsSpace(t[i])
    ensures r == [] || !IsSpace(r[0])
  {
    hide IsSpace;
    if t != [] && IsSpace(t[0]) then
      assert t == [t[0]] + t[1..];
      TrimStart(t[1..])
    else t
  }

  function TrimEnd(t: Text): (r: Text)
    ensures |r| <= |t| && r == t[..|r|]
    ensures forall i :: |r| <= i < |t| ==> IsSpace(t[i])
    ensures r == [] || !IsSpace(r[|r| - 1])
  {
    hide IsSpace;
    if t != [] && IsSpace(t[|t| - 1]) then
      assert t == t[..|t| - 1] + [t[|t| - 1]];
      TrimEnd(t[..|t| - 1])
    else t
  }

  function Trim(t: Text): Text { TrimEnd(TrimStart(t)) }

  lemma {:induction false} TrimStartSkips(blanks: Text, rest: Text)
    requires forall u :: u in blanks ==> IsSpace(u)
    requires rest == [] || !IsSpace(rest[0])
    ensures TrimStart(blanks + rest) == rest
  {
    if blanks == [] {
      assert blanks + rest == rest;
    } else {
      assert (blanks + rest)[1..] == blanks[1..] + rest;
      assert blanks[0] in blanks;
      TrimStartSkips(blanks[1..], rest);
    }
  }

  lemma {:induction false} TrimEndSkips(rest: Text, blanks: Text)
    requires forall u :: u in blanks ==> IsSpace(u)
    requires rest == [] || !IsSpace(rest[|rest| - 1])
    ensures TrimEnd(rest + blanks) == rest
  {
    if blanks == [] {
      assert rest + blanks == rest;
    } else {
      var t := rest + blanks;
      assert t[..|t| - 1] == rest + blanks[..|blanks| - 1];
      assert t[|t| - 1] == blanks[|blanks| - 1] && blanks[|blanks| - 1] in blanks;
      TrimEndSkips(rest, blanks[..|blanks| - 1]);
    }
  }

  /** Trimming finds the core of a text between any two runs of blanks. */
  lemma TrimFindsCore(before: Text, core: Text, after: Text)
    requires core != [] && !IsSpace(core[0]) && !IsSpace(core[|core| - 1])
    requires forall u :: u in before ==> IsSpace(u)
    requires forall u :: u in after ==> IsSpace(u)
    ensures Trim(before + core + after) == core
  {
    assert before + core + after == before + (core + after);
    TrimStartSkips(before, core + after);
    TrimEndSkips(core, after);
  }

  // ---------------------------------------------------------------------
  // Splitting and joining
  // ---------------------------------------------------------------------

  /** The first index of `u`, or the length when it does not occur. */
  function IndexOf(t: Text, u: Unit): (i: nat)
    ensures i <= |t|
    ensures u !in t[..i]
    ensures i < |t| ==> t[i] == u
  {
    if t == [] || t[0] == u then 0 else
      var i := 1 + IndexOf(t[1..], u);
      assert t[..i] == [t[0]] + t[1..][..i - 1];
      i
  }

  lemma IndexOfUnique(t: Text, u: Unit, i: nat)
    requires i <= |t| && u !in t[..i] && (i < |t| ==> t[i] == u)
    ensures IndexOf(t, u) == i
  {
    var j := IndexOf(t, u);
    assert forall k :: 0 <= k < i ==> t[k] == t[..i][k];
    assert forall k :: 0 <= k < j ==> t[k] == t[..j][k];
  }

  /** `t.split(sep)` for a one-unit separator. */
  function Split(t: Text, sep: Unit): (parts: seq<Text>)
    ensures |parts| > 0
    ensures forall p :: p in parts ==> sep !in p
    decreases |t|
  {
    var i := IndexOf(t, sep);
    if i == |t| then assert t[..i] == t; [t] else [t[..i]] + Split(t[i + 1..], sep)
  }

  /** `parts.join(sep)` */
  function Join(parts: seq<Text>, sep: Text): Text {
    if parts == [] then []
    else if |parts| == 1 then parts[0]
    else parts[0] + sep + Join(parts[1..], sep)
  }

  lemma {:induction false} SplitOfJoin(parts: seq<Text>, sep: Unit)
    requires parts != []
    requires forall p :: p in parts ==> sep !in p
    ensures Split(Join(parts, [sep]), sep) == parts
    decreases |parts|
  {
    var t := Join(parts, [sep]);
    if |parts| == 1 {
      assert t[..|t|] == t;
      IndexOfUnique(t, sep, |t|);
    } else {
      var rest := Join(parts[1..], [sep]);
      assert t == parts[0] + [sep] + rest;
      assert t[..|parts[0]|] == parts[0] && t[|parts[0]| + 1..] == rest;
      IndexOfUnique(t, sep, |parts[0]|);
      SplitOfJoin(parts[1..], sep);
    }
  }

  lemma {:induction false} JoinOfSplit(t: Text, sep: Unit)
    ensures Join(Split(t, sep), [sep]) == t
    decreases |t|
  {
    hide IndexOf;
    var i := IndexOf(t, sep);
    if i < |t| {
      JoinOfSplit(t[i + 1..], sep);
      assert Split(t, sep) == [t[..i]] + Split(t[i + 1..], sep);
      hide Join, Split;
      JoinPrepend(t[..i], Split(t[i + 1..], sep), [sep]);
      assert t == t[..i] + [sep] + t[i + 1..];
    }
  }

  /** The last part of a split is what follows the last separator. */
  lemma {:induction false} SplitLast(before: Text, sep: Unit, last: Text)
    requires sep !in last
    ensures var parts := Split(before + [sep] + last, sep); parts[|parts| - 1] == last
    decreases |before|
  {
    hide IndexOf, Split;
    var t := before + [sep] + last;
    var i := IndexOf(t, sep);
    assert i <= |before| by { SeparatorFound(before, sep, last); }
    SplitStep(t, sep);
    if i == |before| {
      assert t[i + 1..] == last;
      SplitNothing(last, sep);
    } else {
      assert t[i + 1..] == before[i + 1..] + [sep] + last;
      SplitLast(before[i + 1..], sep, last);
    }
  }

  lemma SeparatorFound(before: Text, sep: Unit, last: Text)
    ensures IndexOf(before + [sep] + last, sep) <= |before|
  {
    hide IndexOf;
    var t := before + [sep] + last;
    var i := IndexOf(t, sep);
    assert t[|before|] == sep;
    assert forall k :: 0 <= k < i ==> t[k] == t[..i][k];
  }

  lemma SplitStep(t: Text, sep: Unit)
    ensures var i := IndexOf(t, sep);
            i < |t| ==> Split(t, sep) == [t[..i]] + Split(t[i + 1..], sep)
  {
    hide IndexOf;
  }

  lemma SplitNothing(t: Text, sep: Unit)
    requires sep !in t
    ensures Split(t, sep) == [t]
  {
    hide IndexOf;
    IndexOfUnique(t, sep, |t|);
  }

  /** A text starts with a part and the separator exactly when that part comes first. */
  lemma SplitFirst(t: Text, word: Text, sep: Unit)
    requires sep !in word
    ensures word + [sep] <= t <==> |Split(t, sep)| > 1 && Split(t, sep)[0] == word
    ensures word + [sep] <= t ==> Split(t, sep) == [word] + Split(t[|word| + 1..], sep)
  {
    hide IndexOf, Split;
    var i := IndexOf(t, sep);
    if i < |t| { SplitStep(t, sep); } else { assert t[..i] == t; SplitNothing(t, sep); }
    if word + [sep] <= t {
      assert t[..|word|] == word && t[|word|] == (word + [sep])[|word|] == sep;
      IndexOfUnique(t, sep, |word|);
    } else if i < |t| {
      assert t == t[..i] + [sep] + t[i + 1..];
    }
  }

  /** A text without the separator starts a text exactly when it starts its first part. */
  lemma SplitStarts(t: Text, word: Text, sep: Unit)
    requires sep !in word
    ensures word <= t <==> word <= Split(t, sep)[0]
  {
    hide IndexOf, Split;
    var i := IndexOf(t, sep);
    if i < |t| { SplitStep(t, sep); } else { assert t[..i] == t; SplitNothing(t, sep); }
    assert Split(t, sep)[0] == t[..i];
    if word <= t {
      assert forall k :: 0 <= k < |word| ==> t[k] == word[k];
    }
  }

  lemma JoinPrepend(part: Text, rest: seq<Text>, sep: Text)
    requires rest != []
    ensures Join([part] + rest, sep) == part + sep + Join(rest, sep)
  {
    assert ([part] + rest)[1..] == rest;
  }

  // ---------------------------------------------------------------------
  // Substrings
  // ---------------------------------------------------------------------

  /** `s.includes(t)` */
  predicate Includes(s: Text, t: Text) {
    exists i :: 0 <= i <= |s| && OccursAt(s, t, i)
  }

  predicate OccursAt(s: Text, t: Text, i: int) {
    0 <= i && i + |t| <= |s| && s[i..i + |t|] == t
  }

  lemma OccursBetween(before: Text, t: Text, after: Text)
    ensures Includes(before + t + after, t)
  {
    var s := before + t + after;
    assert s[|before|..|before| + |t|] == t;
    assert OccursAt(s, t, |before|);
  }

  lemma IncludesTransitive(s: Text, t: Text, u: Text)
    requires Includes(s, t) && Includes(t, u)
    ensures Includes(s, u)
  {
    var i :| 0 <= i <= |s| && OccursAt(s, t, i);
    var j :| 0 <= j <= |t| && OccursAt(t, u, j);
    assert forall k :: 0 <= k < |u| ==> s[i + j + k] == t[j + k] == u[k];
    assert OccursAt(s, u, i + j);
  }

  // ---------------------------------------------------------------------
  // Decimal numerals
  // ---------------------------------------------------------------------

  /** `String(n)` */
  function Decimal(n: nat): (t: Text)
    ensures t != []
    ensures forall u :: u in t ==> IsDigit(u)
    ensures n > 0 ==> t[0] != 0x30
    ensures n == 0 ==> t == [0x30]
  {
    if n < 10 then [0x30 + n] else Decimal(n / 10) + [0x30 + n % 10]
  }

  function DecimalValue(t: Text): nat
    requires forall u :: u in t ==> IsDigit(u)
  {
    if t == [] then 0 else
      var last := t[|t| - 1];
      assert last in t && IsDigit(last);
      10 * DecimalValue(t[..|t| - 1]) + (last as int - 0x30)
  }

  /** Numerals read back as the number they were printed from. */
  lemma {:induction false} DecimalReadsBack(n: nat)
    ensures DecimalValue(Decimal(n)) == n
  {
    var t := Decimal(n);
    if n >= 10 {
      DecimalReadsBack(n / 10);
      assert t[..|t| - 1] == Decimal(n / 10);
    } else {
      assert t[..0] == [];
    }
  }
}
