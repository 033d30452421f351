/**
 * The renderer's flags as `addArgs` keeps them: `this.args` is a
 * JavaScript object, so it is modelled as a list of (name, value) pairs in
 * insertion order in which assigning an existing name replaces its value
 * in place and assigning a new name appends it.
 */
module Args {
  import opened Wrappers
  import opened JsText

  type ArgList = seq<(string, string)>

  /** `Object.keys(m)`. */
  function Keys(m: ArgList): (ks: seq<string>)
    ensures |ks| == |m|
    ensures forall i :: 0 <= i < |m| ==> ks[i] == m[i].0
  {
    if m == [] then [] else [m[0].0] + Keys(m[1..])
  }

  /** `m[k]`, with `None` for a missing property. */
  function Lookup(m: ArgList, k: string): Option<string> {
    if m == [] then None else if m[0].0 == k then Some(m[0].1) else Lookup(m[1..], k)
  }

  predicate Distinct(s: seq<string>) {
    forall i, j :: 0 <= i < j < |s| ==> s[i] != s[j]
  }

  predicate UniqueKeys(m: ArgList) {
    Distinct(Keys(m))
  }

  /** `m[k] = v`: an existing property keeps its place, a new one goes last. */
  function Put(m: ArgList, k: string, v: string): (r: ArgList)
    ensures Keys(r) == if k in Keys(m) then Keys(m) else Keys(m) + [k]
    ensures Lookup(r, k) == Some(v)
    ensures forall k' :: k' != k ==> Lookup(r, k') == Lookup(m, k')
    ensures UniqueKeys(m) ==> UniqueKeys(r)
  {
    if m == [] then [(k, v)]
    else if m[0].0 == k then
      PutFirst(m, k, v);
      [(k, v)] + m[1..]
    else
      var rest := Put(m[1..], k, v);
      PutLater(m, k, v, rest);
      [m[0]] + rest
  }

  /** Assigning the first name replaces its value in place. */
  lemma PutFirst(m: ArgList, k: string, v: string)
    requires m != [] && m[0].0 == k
    ensures Keys([(k, v)] + m[1..]) == Keys(m) && k in Keys(m)
    ensures Lookup([(k, v)] + m[1..], k) == Some(v)
    ensures forall k' :: k' != k ==> Lookup([(k, v)] + m[1..], k') == Lookup(m, k')
    ensures UniqueKeys(m) ==> UniqueKeys([(k, v)] + m[1..])
  {
    assert Keys(m)[0] == k;
    assert ([(k, v)] + m[1..])[1..] == m[1..];
  }

  /** Assigning a later name leaves the first pair in front of the
      assignment to the rest. */
  lemma PutLater(m: ArgList, k: string, v: string, rest: ArgList)
    requires m != [] && m[0].0 != k
    requires Keys(rest) == if k in Keys(m[1..]) then Keys(m[1..]) else Keys(m[1..]) + [k]
    requires Lookup(rest, k) == Some(v)
    requires forall k' :: k' != k ==> Lookup(rest, k') == Lookup(m[1..], k')
    requires UniqueKeys(m[1..]) ==> UniqueKeys(rest)
    ensures Keys([m[0]] + rest) == if k in Keys(m) then Keys(m) else Keys(m) + [k]
    ensures Lookup([m[0]] + rest, k) == Some(v)
    ensures forall k' :: k' != k ==> Lookup([m[0]] + rest, k') == Lookup(m, k')
    ensures UniqueKeys(m) ==> UniqueKeys([m[0]] + rest)
  {
    var r := [m[0]] + rest;
    assert r[1..] == rest;
    assert Keys(m) == [m[0].0] + Keys(m[1..]);
    assert Keys(r) == [m[0].0] + Keys(rest);
    assert k in Keys(m) <==> k in Keys(m[1..]);
    if UniqueKeys(m) {
      DistinctTail(Keys(m));
      assert Keys(m[1..]) == Keys(m)[1..];
      assert m[0].0 !in Keys(rest);
      DistinctCons(m[0].0, Keys(rest));
    }
  }

  lemma DistinctTail(ks: seq<string>)
    requires ks != [] && Distinct(ks)
    ensures Distinct(ks[1..]) && ks[0] !in ks[1..]
  {
    forall i, j | 0 <= i < j < |ks| - 1
      ensures ks[1..][i] != ks[1..][j]
    {
      assert ks[1..][i] == ks[i + 1] && ks[1..][j] == ks[j + 1];
    }
    forall j | 0 <= j < |ks| - 1
      ensures ks[1..][j] != ks[0]
    {
      assert ks[1..][j] == ks[j + 1];
    }
  }

  /** A new name in front of distinct names keeps them distinct. */
  lemma DistinctCons(h: string, ks: seq<string>)
    requires Distinct(ks) && h !in ks
    ensures Distinct([h] + ks)
  {
    forall i, j | 0 <= i < j < |[h] + ks|
      ensures ([h] + ks)[i] != ([h] + ks)[j]
    {
      assert ([h] + ks)[j] == ks[j - 1];
    }
  }

  /** The pairs assigned one after another. */
  function PutAll(m: ArgList, pairs: ArgList): ArgList {
    if pairs == [] then m
    else Put(PutAll(m, pairs[..|pairs| - 1]), pairs[|pairs| - 1].0, pairs[|pairs| - 1].1)
  }

  /** The value of the last pair named `k`. */
  function LastValue(pairs: ArgList, k: string): Option<string> {
    if pairs == [] then None
    else if pairs[|pairs| - 1].0 == k then Some(pairs[|pairs| - 1].1)
    else LastValue(pairs[..|pairs| - 1], k)
  }

  /** `ks` followed by the names of `names` it lacks, in order of first
      appearance. */
  function AppendNew(ks: seq<string>, names: seq<string>): seq<string> {
    if names == [] then ks
    else
      var prev := AppendNew(ks, names[..|names| - 1]);
      if names[|names| - 1] in prev then prev else prev + [names[|names| - 1]]
  }

  /** Merging one more pair is one more assignment. */
  lemma PutAllSnoc(m: ArgList, pairs: ArgList, p: (string, string))
    ensures PutAll(m, pairs + [p]) == Put(PutAll(m, pairs), p.0, p.1)
  {
    assert (pairs + [p])[..|pairs|] == pairs;
  }

  lemma CanonicalisedSnoc(pairs: ArgList, i: nat)
    requires i < |pairs|
    ensures Canonicalised(pairs[..i + 1]) == Canonicalised(pairs[..i]) + [(CanonicalKey(pairs[i].0), pairs[i].1)]
  {
  }

  lemma ObjectPairsSnoc(entries: seq<(string, ArgValue)>, i: nat)
    requires i < |entries|
    ensures ObjectPairs(entries[..i + 1]) == ObjectPairs(entries[..i]) + [(entries[i].0, Stringify(entries[i].1))]
  {
  }

  lemma ArrayPairsSnoc(items: seq<string>, i: nat)
    requires i < |items|
    ensures ArrayPairs(items[..i + 1]) == ArrayPairs(items[..i]) + [KeyValue(items[i])]
  {
  }

  lemma TokenPairsSnoc(tokens: seq<string>, i: nat)
    requires i < |tokens|
    ensures tokens[i] == "" ==> TokenPairs(tokens[..i + 1]) == TokenPairs(tokens[..i])
    ensures tokens[i] != "" ==> TokenPairs(tokens[..i + 1]) == TokenPairs(tokens[..i]) + [KeyValue(tokens[i])]
  {
    assert tokens[..i + 1][..i] == tokens[..i];
    assert TokenPairs(tokens[..i]) + [] == TokenPairs(tokens[..i]);
  }

  /** After a merge, every name holds the value it was last assigned, and
      names that were not assigned keep their value. */
  lemma {:induction false} PutAllLookup(m: ArgList, pairs: ArgList, k: string)
    ensures Lookup(PutAll(m, pairs), k) == if LastValue(pairs, k).Some? then LastValue(pairs, k) else Lookup(m, k)
  {
    if pairs != [] {
      PutAllLookup(m, pairs[..|pairs| - 1], k);
    }
  }

  /** A merge keeps the names already present in their places and appends
      the new names in the order they are first assigned. */
  lemma {:induction false} PutAllKeys(m: ArgList, pairs: ArgList)
    ensures Keys(PutAll(m, pairs)) == AppendNew(Keys(m), Keys(pairs))
    ensures UniqueKeys(m) ==> UniqueKeys(PutAll(m, pairs))
  {
    if pairs != [] {
      var init := pairs[..|pairs| - 1];
      var last := pairs[|pairs| - 1];
      PutAllKeys(m, init);
      assert Keys(pairs)[..|pairs| - 1] == Keys(init) && Keys(pairs)[|pairs| - 1] == last.0;
      assert PutAll(m, pairs) == Put(PutAll(m, init), last.0, last.1);
      assert AppendNew(Keys(m), Keys(pairs))
        == var prev := AppendNew(Keys(m), Keys(init)); if last.0 in prev then prev else prev + [last.0];
    }
  }

  lemma {:induction false} AppendNewPrefix(ks: seq<string>, names: seq<string>)
    ensures |ks| <= |AppendNew(ks, names)| && AppendNew(ks, names)[..|ks|] == ks
  {
    if names != [] {
      AppendNewPrefix(ks, names[..|names| - 1]);
    }
  }

  /** `/^--[^-]/.test(key)`. */
  predicate IsCanonical(key: string) {
    |key| >= 3 && key[0] == '-' && key[1] == '-' && key[2] != '-'
  }

  /** The flag name `addArgs` stores a key under. */
  function CanonicalKey(key: string): string {
    if IsCanonical(key) then key
    else "--" + (if |key| > 0 && key[0] == '-' then key[1..] else key)
  }

  /** Every stored name starts with `--`, and a key is stored unchanged
      exactly when it already has the `--name` form. */
  lemma CanonicalKeyForm(key: string)
    ensures |CanonicalKey(key)| >= 2 && CanonicalKey(key)[..2] == "--"
    ensures CanonicalKey(key) == key <==> IsCanonical(key)
  {
  }

  /** `name`, `-name` and `--name` are one flag. */
  lemma CanonicalKeyDashes(name: string)
    requires name != [] && name[0] != '-'
    ensures CanonicalKey(name) == "--" + name
    ensures CanonicalKey("-" + name) == "--" + name
    ensures CanonicalKey("--" + name) == "--" + name
  {
    assert ("-" + name)[1..] == name;
  }

  /** A property value as `String(value)` writes it. */
  datatype ArgValue = Str(s: string) | Bool(b: bool) | Num(n: int) | Null | Undefined

  function Stringify(v: ArgValue): string {
    match v
    case Str(s) => s
    case Bool(b) => if b then "true" else "false"
    case Num(n) => IntToString(n)
    case Null => "null"
    case Undefined => "undefined"
  }

  /** The forms `phantomArgs` may take: a falsy value, an object, an array of
      `key=value` strings, a string, or any other truthy value. */
  datatype ArgsInput =
    | Falsy
    | ObjectArgs(entries: seq<(string, ArgValue)>)
    | ArrayArgs(items: seq<string>)
    | StringArgs(text: string)
    | OtherArgs

  predicate IsFalsy(input: ArgsInput) {
    input.Falsy? || (input.StringArgs? && input.text == "")
  }

  /** `parts = arg.split('=')`; the pair `(parts[0], parts[1] || '')`. */
  function KeyValue(arg: string): (string, string) {
    var parts := SplitOn(arg, '=');
    (parts[0], if |parts| > 1 then parts[1] else "")
  }

  /** The key is the text before the first `=`, the value the text between
      the first and the second `=` (empty without a `=`). */
  lemma KeyValueMeaning(arg: string)
    ensures var (k, v) := KeyValue(arg);
      && '=' !in k && '=' !in v
      && (if '=' in arg then
            && |k| + 1 + |v| <= |arg|
            && arg[..|k| + 1] == k + "=" && arg[|k| + 1..|k| + 1 + |v|] == v
            && (|k| + 1 + |v| == |arg| || arg[|k| + 1 + |v|] == '=')
          else arg == k && v == "")
  {
    var parts := SplitOn(arg, '=');
    if |parts| > 1 {
      var tail := JoinWith(parts[1..], '=');
      assert arg == parts[0] + "=" + tail;
      if |parts| > 2 {
        assert tail == parts[1] + "=" + JoinWith(parts[2..], '=');
      }
      assert '=' in arg by { assert arg[|parts[0]|] == '='; }
    }
  }

  lemma {:induction false} SplitOnPair(k: string, v: string, sep: char)
    requires sep !in k && sep !in v
    ensures SplitOn(k + [sep] + v, sep) == [k, v]
  {
    if k == [] {
      assert k + [sep] + v == [sep] + v;
      assert ([sep] + v)[1..] == v;
      SplitOnWhole(v, sep);
    } else {
      var s := k + [sep] + v;
      assert s[1..] == k[1..] + [sep] + v;
      SplitOnPair(k[1..], v, sep);
      assert s[0] == k[0] && [k[0]] + k[1..] == k;
    }
  }

  lemma {:induction false} SplitOnWhole(s: string, sep: char)
    requires sep !in s
    ensures SplitOn(s, sep) == [s]
  {
    if s != [] {
      SplitOnWhole(s[1..], sep);
    }
  }

  lemma KeyValueOfAssignment(k: string, v: string)
    requires '=' !in k && '=' !in v
    ensures KeyValue(k + "=" + v) == (k, v)
  {
    SplitOnPair(k, v, '=');
  }

  function ObjectPairs(entries: seq<(string, ArgValue)>): ArgList {
    seq(|entries|, i requires 0 <= i < |entries| => (entries[i].0, Stringify(entries[i].1)))
  }

  function ArrayPairs(items: seq<string>): ArgList {
    seq(|items|, i requires 0 <= i < |items| => KeyValue(items[i]))
  }

  /** The pairs of the non-empty tokens of a split string. */
  function TokenPairs(tokens: seq<string>): ArgList {
    if tokens == [] then []
    else
      var last := tokens[|tokens| - 1];
      TokenPairs(tokens[..|tokens| - 1]) + (if last == "" then [] else [KeyValue(last)])
  }

  predicate AdjacentOk(x: char, y: char) {
    !(IsSpace(x) && y == '=') && !(x == '=' && IsSpace(y))
  }

  /** No whitespace touches an `=`. */
  predicate NoSpaceAroundEquals(s: string) {
    forall i :: 0 <= i < |s| - 1 ==> AdjacentOk(s[i], s[i + 1])
  }

  lemma ConcatNoSpaceAroundEquals(a: string, b: string)
    requires NoSpaceAroundEquals(a) && NoSpaceAroundEquals(b)
    requires a == [] || b == [] || AdjacentOk(a[|a| - 1], b[0])
    ensures NoSpaceAroundEquals(a + b)
  {
    var s := a + b;
    forall i | 0 <= i < |s| - 1
      ensures AdjacentOk(s[i], s[i + 1])
    {
      if i < |a| - 1 {
        assert s[i] == a[i] && s[i + 1] == a[i + 1];
      } else if i == |a| - 1 {
        assert s[i] == a[|a| - 1] && s[i + 1] == b[0];
      } else {
        assert s[i] == b[i - |a|] && s[i + 1] == b[i - |a| + 1];
      }
    }
  }

  /** The global replacement of the pattern `\s*=\s*` by `=`: every run of
      whitespace before or after an `=` is removed. */
  function CollapseAroundEquals(s: string): (r: string)
    ensures NonSpace(r) == NonSpace(s)
    ensures NoSpaceAroundEquals(r)
    ensures s != [] && !IsSpace(s[0]) ==> r != [] && r[0] == s[0]
    decreases |s|
  {
    if s == [] then []
    else if IsSpace(s[0]) then
      var n := SpaceRun(s);
      if n == |s| then
        CollapseAllSpaces(s);
        s
      else if s[n] == '=' then
        CollapseDropsRun(s, n);
        CollapseAroundEquals(s[n..])
      else
        var tail := CollapseAroundEquals(s[n..]);
        CollapseKeepsRun(s, n, tail);
        s[..n] + tail
    else if s[0] == '=' then
      var k := SpaceRun(s[1..]);
      var tail := CollapseAroundEquals(s[1 + k..]);
      assert s[1..][k..] == s[1 + k..];
      assert s[1 + k..] == [] ==> tail == [];
      CollapseEquals(s, k, tail);
      "=" + tail
    else
      var tail := CollapseAroundEquals(s[1..]);
      CollapseOther(s, tail);
      [s[0]] + tail
  }

  lemma CollapseAllSpaces(s: string)
    requires AllSpace(s)
    ensures NonSpace(s) == [] && NoSpaceAroundEquals(s)
  {
    NonSpaceOfSpaces(s);
  }

  lemma CollapseDropsRun(s: string, n: nat)
    requires n <= |s| && AllSpace(s[..n])
    ensures NonSpace(s[n..]) == NonSpace(s)
  {
    assert s == s[..n] + s[n..];
    NonSpaceAppend(s[..n], s[n..]);
    NonSpaceOfSpaces(s[..n]);
  }

  lemma CollapseKeepsRun(s: string, n: nat, tail: string)
    requires 0 < n < |s| && AllSpace(s[..n]) && s[n] != '=' && !IsSpace(s[n])
    requires NonSpace(tail) == NonSpace(s[n..]) && NoSpaceAroundEquals(tail)
    requires tail != [] && tail[0] == s[n]
    ensures NonSpace(s[..n] + tail) == NonSpace(s) && NoSpaceAroundEquals(s[..n] + tail)
  {
    CollapseDropsRun(s, n);
    NonSpaceAppend(s[..n], tail);
    NonSpaceOfSpaces(s[..n]);
    SpacesNoSpaceAroundEquals(s[..n]);
    assert IsSpace(s[..n][n - 1]);
    ConcatNoSpaceAroundEquals(s[..n], tail);
  }

  lemma SpacesNoSpaceAroundEquals(w: string)
    requires AllSpace(w)
    ensures NoSpaceAroundEquals(w)
  {
    forall i | 0 <= i < |w| - 1
      ensures AdjacentOk(w[i], w[i + 1])
    {
      assert IsSpace(w[i]) && IsSpace(w[i + 1]);
    }
  }

  lemma CollapseEquals(s: string, k: nat, tail: string)
    requires |s| >= 1 && s[0] == '='
    requires k <= |s| - 1 && AllSpace(s[1..][..k]) && (k == |s| - 1 || !IsSpace(s[1..][k]))
    requires NonSpace(tail) == NonSpace(s[1 + k..]) && NoSpaceAroundEquals(tail)
    requires tail == [] || !IsSpace(tail[0])
    ensures NonSpace("=" + tail) == NonSpace(s) && NoSpaceAroundEquals("=" + tail)
  {
    assert s[1..][..k] == s[1..1 + k];
    assert s[..1] == "=";
    WordGapRest(s, 1, k);
    NonSpaceAppend("=", tail);
    NonSpaceOfWord("=");
    ConcatNoSpaceAroundEquals("=", tail);
  }

  lemma CollapseOther(s: string, tail: string)
    requires |s| >= 1 && s[0] != '=' && !IsSpace(s[0])
    requires NonSpace(tail) == NonSpace(s[1..]) && NoSpaceAroundEquals(tail)
    ensures NonSpace([s[0]] + tail) == NonSpace(s) && NoSpaceAroundEquals([s[0]] + tail)
  {
    assert s == [s[0]] + s[1..];
    NonSpaceAppend([s[0]], s[1..]);
    NonSpaceAppend([s[0]], tail);
    ConcatNoSpaceAroundEquals([s[0]], tail);
  }

  /** A character that neither is whitespace nor is `=`. */
  predicate Plain(c: char) {
    !IsSpace(c) && c != '='
  }

  /** A whitespace run that touches no `=` survives the replacement: text
      ending in a plain character, then the run, then text that is empty or
      starts with a plain character, is replaced piece by piece. */
  lemma CollapseKeepsLoneRun(a: string, w: string, b: string)
    requires w != "" && AllSpace(w)
    requires a == [] || Plain(a[|a| - 1])
    requires b == [] || Plain(b[0])
    ensures CollapseAroundEquals(a + (w + b)) == CollapseAroundEquals(a) + (w + CollapseAroundEquals(b))
  {
    CollapseSplitsAfterPlain(a, w + b);
    CollapseRunFirst(w, b);
  }

  /** No match of the pattern straddles a plain character, so text ending
      in one is replaced independently of what follows it. */
  lemma {:induction false} CollapseSplitsAfterPlain(a: string, y: string)
    requires a == [] || Plain(a[|a| - 1])
    ensures CollapseAroundEquals(a + y) == CollapseAroundEquals(a) + CollapseAroundEquals(y)
    decreases |a|
  {
    if a == [] {
      assert a + y == y;
    } else {
      var m := LoneRunCut(a);
      CollapseSplitsAfterPlain(a[m..], y);
      LoneRunStep(a, y, CollapseAroundEquals(y), m);
    }
  }

  /** Where the replacement resumes after the first character, `=` or
      whitespace run of `a`: always a non-empty rest of `a`, or past its end
      only when `a` is a single plain character. */
  function LoneRunCut(a: string): (m: nat)
    requires a != [] && Plain(a[|a| - 1])
    ensures 0 < m <= |a| && (m == |a| ==> Plain(a[0]))
  {
    if IsSpace(a[0]) then
      assert SpaceRun(a) < |a| by { SpaceRunStops(a, |a| - 1); }
      SpaceRun(a)
    else if a[0] == '=' then
      assert SpaceRun(a[1..]) < |a| - 1 by { SpaceRunStops(a[1..], |a| - 2); }
      1 + SpaceRun(a[1..])
    else 1
  }

  /** If the replacement past the first cut of `a` carries `tail` along, so
      does the replacement of the whole of `a`. */
  lemma LoneRunStep(a: string, y: string, tail: string, m: nat)
    requires a != [] && Plain(a[|a| - 1]) && m == LoneRunCut(a)
    requires CollapseAroundEquals(a[m..] + y) == CollapseAroundEquals(a[m..]) + tail
    ensures CollapseAroundEquals(a + y) == CollapseAroundEquals(a) + tail
  {
    if IsSpace(a[0]) {
      SpaceCase(a, y, tail);
    } else if a[0] == '=' {
      EqualsCase(a, y, tail);
    } else {
      PlainCase(a, y, tail);
    }
  }

  lemma SpaceCase(a: string, y: string, tail: string)
    requires a != [] && IsSpace(a[0]) && SpaceRun(a) < |a|
    requires CollapseAroundEquals(a[SpaceRun(a)..] + y) == CollapseAroundEquals(a[SpaceRun(a)..]) + tail
    ensures CollapseAroundEquals(a + y) == CollapseAroundEquals(a) + tail
  {
    var n := SpaceRun(a);
    CollapseSpaceStep(a, y);
    var head := if a[n] == '=' then [] else a[..n];
    HeadThenRest(head, CollapseAroundEquals(a + y), CollapseAroundEquals(a), CollapseAroundEquals(a[n..] + y),
      CollapseAroundEquals(a[n..]), tail);
  }

  lemma EqualsCase(a: string, y: string, tail: string)
    requires a != [] && a[0] == '=' && SpaceRun(a[1..]) < |a| - 1
    requires CollapseAroundEquals(a[1 + SpaceRun(a[1..])..] + y) == CollapseAroundEquals(a[1 + SpaceRun(a[1..])..]) + tail
    ensures CollapseAroundEquals(a + y) == CollapseAroundEquals(a) + tail
  {
    var k := SpaceRun(a[1..]);
    CollapseEqualsStep(a, y);
    HeadThenRest("=", CollapseAroundEquals(a + y), CollapseAroundEquals(a), CollapseAroundEquals(a[1 + k..] + y),
      CollapseAroundEquals(a[1 + k..]), tail);
  }

  lemma PlainCase(a: string, y: string, tail: string)
    requires a != [] && Plain(a[0])
    requires CollapseAroundEquals(a[1..] + y) == CollapseAroundEquals(a[1..]) + tail
    ensures CollapseAroundEquals(a + y) == CollapseAroundEquals(a) + tail
  {
    CollapsePlainStep(a, y);
    HeadThenRest([a[0]], CollapseAroundEquals(a + y), CollapseAroundEquals(a), CollapseAroundEquals(a[1..] + y),
      CollapseAroundEquals(a[1..]), tail);
  }

  /** Both sides share the head the replacement writes first. */
  lemma HeadThenRest(head: string, whole: string, part: string, restWhole: string, rest: string, tail: string)
    requires whole == head + restWhole && part == head + rest && restWhole == rest + tail
    ensures whole == part + tail
  {
  }

  lemma CollapseRunFirst(w: string, b: string)
    requires w != "" && AllSpace(w)
    requires b == [] || Plain(b[0])
    ensures CollapseAroundEquals(w + b) == w + CollapseAroundEquals(b)
  {
    var s := w + b;
    SpaceRunOfRun(w, b);
    if b == [] {
      assert s == w;
    } else {
      assert s[|w|..] == b && s[..|w|] == w && s[|w|] == b[0];
    }
  }

  /** The replacement on text that starts with a whitespace run inside `x`. */
  lemma CollapseSpaceStep(x: string, y: string)
    requires x != [] && IsSpace(x[0]) && SpaceRun(x) < |x|
    ensures var n := SpaceRun(x);
      && CollapseAroundEquals(x + y) ==
           (if x[n] == '=' then [] else x[..n]) + CollapseAroundEquals(x[n..] + y)
      && CollapseAroundEquals(x) ==
           (if x[n] == '=' then [] else x[..n]) + CollapseAroundEquals(x[n..])
  {
    var n := SpaceRun(x);
    SpaceRunPrefix(x, y);
    assert (x + y)[n..] == x[n..] + y && (x + y)[n] == x[n] && (x + y)[..n] == x[..n];
  }

  /** The replacement on text that starts with `=` and a whitespace run inside `x`. */
  lemma CollapseEqualsStep(x: string, y: string)
    requires x != [] && x[0] == '=' && SpaceRun(x[1..]) < |x| - 1
    ensures var k := SpaceRun(x[1..]);
      && CollapseAroundEquals(x + y) == "=" + CollapseAroundEquals(x[1 + k..] + y)
      && CollapseAroundEquals(x) == "=" + CollapseAroundEquals(x[1 + k..])
  {
    var k := SpaceRun(x[1..]);
    SpaceRunPrefix(x[1..], y);
    assert (x + y)[1..] == x[1..] + y;
    assert (x + y)[1 + k..] == x[1 + k..] + y;
  }

  /** The replacement on text that starts with a plain character. */
  lemma CollapsePlainStep(x: string, y: string)
    requires x != [] && Plain(x[0])
    ensures CollapseAroundEquals(x + y) == [x[0]] + CollapseAroundEquals(x[1..] + y)
    ensures CollapseAroundEquals(x) == [x[0]] + CollapseAroundEquals(x[1..])
  {
    assert (x + y)[1..] == x[1..] + y;
  }

  /** The leading run of `x + y` is that of `x` when `x` is not all whitespace. */
  lemma SpaceRunPrefix(x: string, y: string)
    requires SpaceRun(x) < |x|
    ensures SpaceRun(x + y) == SpaceRun(x)
  {
    var n := SpaceRun(x);
    assert (x + y)[..n] == x[..n];
    SpaceRunCovers(x + y, n);
    assert (x + y)[n] == x[n];
    SpaceRunStops(x + y, n);
  }

  /** A run followed by text that does not start with whitespace is the leading run. */
  lemma SpaceRunOfRun(w: string, b: string)
    requires AllSpace(w) && (b == [] || !IsSpace(b[0]))
    ensures SpaceRun(w + b) == |w|
  {
    assert (w + b)[..|w|] == w;
    SpaceRunCovers(w + b, |w|);
    if b != [] {
      assert (w + b)[|w|] == b[0];
      SpaceRunStops(w + b, |w|);
    }
  }

  /** A string with no whitespace next to an `=` is left as it is; hence the
      replacement is idempotent. */
  lemma {:induction false} CollapseKeeps(s: string)
    requires NoSpaceAroundEquals(s)
    ensures CollapseAroundEquals(s) == s
    decreases |s|
  {
    if s != [] {
      if IsSpace(s[0]) {
        var n := SpaceRun(s);
        if n < |s| {
          assert AdjacentOk(s[n - 1], s[n]);
          SuffixNoSpaceAroundEquals(s, n);
          CollapseKeeps(s[n..]);
          assert s == s[..n] + s[n..];
        }
      } else if s[0] == '=' {
        if |s| > 1 {
          assert AdjacentOk(s[0], s[1]);
        }
        assert SpaceRun(s[1..]) == 0;
        SuffixNoSpaceAroundEquals(s, 1);
        CollapseKeeps(s[1..]);
      } else {
        SuffixNoSpaceAroundEquals(s, 1);
        CollapseKeeps(s[1..]);
      }
    }
  }

  lemma SuffixNoSpaceAroundEquals(s: string, k: nat)
    requires k <= |s| && NoSpaceAroundEquals(s)
    ensures NoSpaceAroundEquals(s[k..])
  {
    var t := s[k..];
    forall i | 0 <= i < |t| - 1
      ensures AdjacentOk(t[i], t[i + 1])
    {
      assert t[i] == s[k + i] && t[i + 1] == s[k + i + 1];
    }
  }

  lemma CollapseIdempotent(s: string)
    ensures CollapseAroundEquals(CollapseAroundEquals(s)) == CollapseAroundEquals(s)
  {
    CollapseKeeps(CollapseAroundEquals(s));
  }

  /** The raw `collection` `addArgs` builds before canonicalising names. */
  function Collection(input: ArgsInput): ArgList {
    PutAll([], InputPairs(input))
  }

  /** The assignments `addArgs` makes to `collection`, in order. */
  function InputPairs(input: ArgsInput): ArgList {
    match input
    case ObjectArgs(entries) => ObjectPairs(entries)
    case ArrayArgs(items) => ArrayPairs(items)
    case StringArgs(text) => StringPairs(text)
    case _ => []
  }

  /** A string argument: whitespace around `=` removed, split on runs of
      whitespace, empty tokens skipped. */
  function StringPairs(text: string): ArgList {
    TokenPairs(SplitOnSpaces(CollapseAroundEquals(text)))
  }

  function Canonicalised(pairs: ArgList): ArgList {
    seq(|pairs|, i requires 0 <= i < |pairs| => (CanonicalKey(pairs[i].0), pairs[i].1))
  }

  /** `this.args` after `Object.keys(collection).forEach(...)`. */
  function Merge(args: ArgList, collection: ArgList): ArgList {
    PutAll(args, Canonicalised(collection))
  }

  /** The two flags every instance starts with. */
  const SeedArgs: ArgList := [("--ignore-ssl-errors", "true"), ("--ssl-protocol", "tlsv1")]

  /** Whatever is merged, the seeded flags stay first and in their order,
      and each keeps its default unless the collection names it. */
  lemma SeedFlagsStayFirst(collection: ArgList)
    ensures var r := Merge(SeedArgs, collection);
      && |r| >= 2 && r[0].0 == "--ignore-ssl-errors" && r[1].0 == "--ssl-protocol"
      && UniqueKeys(r)
      && Lookup(r, "--ignore-ssl-errors") == (if LastValue(Canonicalised(collection), "--ignore-ssl-errors").Some?
           then LastValue(Canonicalised(collection), "--ignore-ssl-errors") else Some("true"))
      && Lookup(r, "--ssl-protocol") == (if LastValue(Canonicalised(collection), "--ssl-protocol").Some?
           then LastValue(Canonicalised(collection), "--ssl-protocol") else Some("tlsv1"))
  {
    var pairs := Canonicalised(collection);
    SeedArgsFacts();
    SeedNamesFirst(pairs);
    PutAllLookup(SeedArgs, pairs, "--ignore-ssl-errors");
    PutAllLookup(SeedArgs, pairs, "--ssl-protocol");
  }

  lemma SeedArgsFacts()
    ensures Keys(SeedArgs) == ["--ignore-ssl-errors", "--ssl-protocol"] && UniqueKeys(SeedArgs)
    ensures Lookup(SeedArgs, "--ignore-ssl-errors") == Some("true")
    ensures Lookup(SeedArgs, "--ssl-protocol") == Some("tlsv1")
  {
    assert Keys(SeedArgs)[0] != Keys(SeedArgs)[1] by {
      assert "--ignore-ssl-errors"[2] != "--ssl-protocol"[3];
    }
  }

  lemma SeedNamesFirst(pairs: ArgList)
    ensures var r := PutAll(SeedArgs, pairs);
      |r| >= 2 && r[0].0 == "--ignore-ssl-errors" && r[1].0 == "--ssl-protocol" && UniqueKeys(r)
  {
    var r := PutAll(SeedArgs, pairs);
    SeedArgsFacts();
    PutAllKeys(SeedArgs, pairs);
    AppendNewPrefix(Keys(SeedArgs), Keys(pairs));
    assert Keys(r)[..2] == Keys(SeedArgs);
    assert r[0].0 == Keys(r)[0] && r[1].0 == Keys(r)[1];
  }
  /** An array item that a space-separated string carries unchanged: not
      empty, no whitespace, no `=` at either end. */
  predicate PlainAssignment(item: string) {
    item != "" && NoSpace(item) && item[0] != '=' && item[|item| - 1] != '='
  }

  lemma NoSpaceHasNoneAroundEquals(s: string)
    requires NoSpace(s)
    ensures NoSpaceAroundEquals(s)
  {
  }

  lemma {:induction false} JoinNoSpaceAroundEquals(items: seq<string>)
    requires |items| >= 1
    requires forall i :: 0 <= i < |items| ==> PlainAssignment(items[i])
    ensures NoSpaceAroundEquals(JoinWith(items, ' '))
  {
    if |items| == 1 {
      NoSpaceHasNoneAroundEquals(items[0]);
    } else {
      var rest := JoinWith(items[1..], ' ');
      JoinNoSpaceAroundEquals(items[1..]);
      JoinStartsWith(items[1..], ' ');
      NoSpaceHasNoneAroundEquals(items[0]);
      ConcatNoSpaceAroundEquals([' '], rest);
      ConcatNoSpaceAroundEquals(items[0], [' '] + rest);
      assert JoinWith(items, ' ') == items[0] + ([' '] + rest);
    }
  }

  lemma {:induction false} TokenPairsOfWords(tokens: seq<string>)
    requires forall i :: 0 <= i < |tokens| ==> tokens[i] != ""
    ensures TokenPairs(tokens) == ArrayPairs(tokens)
  {
    if tokens != [] {
      var init := tokens[..|tokens| - 1];
      TokenPairsOfWords(init);
      assert ArrayPairs(tokens) == ArrayPairs(init) + [KeyValue(tokens[|tokens| - 1])];
    }
  }

  /** Plain assignments joined by spaces have no whitespace next to an
      `=`, so the replacement leaves them as they are. */
  lemma CollapsePlain(items: seq<string>)
    requires |items| >= 1
    requires forall i :: 0 <= i < |items| ==> PlainAssignment(items[i])
    ensures CollapseAroundEquals(JoinWith(items, ' ')) == JoinWith(items, ' ')
  {
    JoinNoSpaceAroundEquals(items);
    CollapseKeeps(JoinWith(items, ' '));
  }

  lemma StringPairsOfPlain(items: seq<string>)
    requires |items| >= 1
    requires forall i :: 0 <= i < |items| ==> PlainAssignment(items[i])
    ensures StringPairs(JoinWith(items, ' ')) == ArrayPairs(items)
  {
    CollapsePlain(items);
    SplitOnSpacesJoin(items);
    TokenPairsOfWords(items);
  }

  lemma SamePairs(a: ArgsInput, b: ArgsInput)
    requires a.StringArgs? && b.ArrayArgs? && StringPairs(a.text) == ArrayPairs(b.items)
    ensures Collection(a) == Collection(b)
  {
    assert InputPairs(a) == InputPairs(b);
  }

  /** A space-separated string of plain assignments yields the same
      collection as the array of those assignments. */
  lemma StringFormMatchesArrayForm(items: seq<string>)
    requires |items| >= 1
    requires forall i :: 0 <= i < |items| ==> PlainAssignment(items[i])
    ensures Collection(StringArgs(JoinWith(items, ' '))) == Collection(ArrayArgs(items))
  {
    StringPairsOfPlain(items);
    SamePairs(StringArgs(JoinWith(items, ' ')), ArrayArgs(items));
  }

  function AsObject(entries: ArgList): seq<(string, ArgValue)> {
    seq(|entries|, i requires 0 <= i < |entries| => (entries[i].0, Str(entries[i].1)))
  }

  function AsAssignments(entries: ArgList): seq<string> {
    seq(|entries|, i requires 0 <= i < |entries| => entries[i].0 + "=" + entries[i].1)
  }

  /** An object of string values yields the same collection as the array of
      its `key=value` assignments, when no key or value holds an `=`. */
  lemma ObjectFormMatchesArrayForm(entries: ArgList)
    requires forall i :: 0 <= i < |entries| ==> '=' !in entries[i].0 && '=' !in entries[i].1
    ensures Collection(ObjectArgs(AsObject(entries))) == Collection(ArrayArgs(AsAssignments(entries)))
  {
    var items := AsAssignments(entries);
    forall i | 0 <= i < |entries|
      ensures ArrayPairs(items)[i] == ObjectPairs(AsObject(entries))[i]
    {
      KeyValueOfAssignment(entries[i].0, entries[i].1);
    }
    assert ArrayPairs(items) == ObjectPairs(AsObject(entries));
  }

  lemma {:induction false} PutNew(m: ArgList, k: string, v: string)
    requires k !in Keys(m)
    ensures Put(m, k, v) == m + [(k, v)]
  {
    if m != [] {
      assert Keys(m)[0] == m[0].0 && Keys(m[1..]) == Keys(m)[1..];
      PutNew(m[1..], k, v);
      assert Put(m, k, v) == [m[0]] + Put(m[1..], k, v);
      assert [m[0]] + (m[1..] + [(k, v)]) == m + [(k, v)];
    }
  }

  lemma KeysAppend(a: ArgList, b: ArgList)
    ensures Keys(a + b) == Keys(a) + Keys(b)
  {
    assert |Keys(a + b)| == |Keys(a) + Keys(b)|;
  }

  lemma UniqueKeysSplit(pairs: ArgList)
    requires pairs != [] && UniqueKeys(pairs)
    ensures UniqueKeys(pairs[..|pairs| - 1])
    ensures pairs[|pairs| - 1].0 !in Keys(pairs[..|pairs| - 1])
  {
    var init := pairs[..|pairs| - 1];
    assert Keys(init) == Keys(pairs)[..|pairs| - 1];
    forall j | 0 <= j < |init|
      ensures Keys(init)[j] != pairs[|pairs| - 1].0
    {
      assert Keys(pairs)[j] != Keys(pairs)[|pairs| - 1];
    }
  }

  /** Pairs with distinct names none of which `m` has are appended as they
      are, in order. */
  lemma {:induction false} PutAllFresh(m: ArgList, pairs: ArgList)
    requires UniqueKeys(pairs)
    requires forall i :: 0 <= i < |pairs| ==> pairs[i].0 !in Keys(m)
    ensures PutAll(m, pairs) == m + pairs
  {
    if pairs != [] {
      var init := pairs[..|pairs| - 1];
      var last := pairs[|pairs| - 1];
      UniqueKeysSplit(pairs);
      calc {
        PutAll(m, pairs);
        Put(PutAll(m, init), last.0, last.1);
        { PutAllFresh(m, init); }
        Put(m + init, last.0, last.1);
        { KeysAppend(m, init); PutNew(m + init, last.0, last.1); }
        (m + init) + [last];
        { assert pairs == init + [last]; }
        m + pairs;
      }
    }
  }

  /** A collection whose stored names are distinct and new to `args` is
      appended after them in insertion order, so the seeded flags and any
      earlier flags keep their places and values. */
  lemma MergeFresh(args: ArgList, collection: ArgList)
    requires UniqueKeys(Canonicalised(collection))
    requires forall i :: 0 <= i < |collection| ==> CanonicalKey(collection[i].0) !in Keys(args)
    ensures Merge(args, collection) == args + Canonicalised(collection)
  {
    PutAllFresh(args, Canonicalised(collection));
  }
}
