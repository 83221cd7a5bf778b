/** The string normalisers that identifiers, priorities, labels and owners pass through. */
module Normalise {
  import opened Common
  import opened Sorting

  // ---------------------------------------------------------------------------------------------
  // Characters
  // ---------------------------------------------------------------------------------------------

  predicate IsLower(c: char) { 'a' <= c <= 'z' }
  predicate IsUpper(c: char) { 'A' <= c <= 'Z' }
  predicate IsAlphanumeric(c: char) { IsLower(c) || IsUpper(c) || '0' <= c <= '9' }

  function UpperChar(c: char): char {
    if IsLower(c) then c - 'a' + 'A' else c
  }

  function LowerChar(c: char): char {
    if IsUpper(c) then c - 'A' + 'a' else c
  }

  const LOWER: string := "abcdefghijklmnopqrstuvwxyz"
  const UPPER: string := "ABCDEFGHIJKLMNOPQRSTUVWXYZ"
  const DIGITS: string := "0123456789"

  /** A text that lists the characters from `first` on, one after the other. */
  ghost predicate Lists(s: string, first: char) {
    forall i | 0 <= i < |s| :: s[i] as int == first as int + i
  }

  lemma ListsAre(s: string, first: char, c: char)
    requires Lists(s, first)
    ensures c in s <==> first as int <= c as int < first as int + |s|
  {
    if first as int <= c as int < first as int + |s| {
      assert s[c as int - first as int] == c;
    }
  }

  lemma AlphabetsAreLists()
    ensures |LOWER| == |UPPER| == 26 && |DIGITS| == 10
    ensures Lists(LOWER, 'a') && Lists(UPPER, 'A') && Lists(DIGITS, '0')
  {}

  /** The ranges are the ASCII alphabets and digits, and the two mappings exchange letter by letter. */
  lemma CharactersAreAscii(c: char)
    ensures IsAlphanumeric(c) <==> c in LOWER || c in UPPER || c in DIGITS
    ensures |LOWER| == |UPPER| == 26
    ensures forall i | 0 <= i < 26 :: UpperChar(LOWER[i]) == UPPER[i] && LowerChar(UPPER[i]) == LOWER[i]
    ensures c !in LOWER ==> UpperChar(c) == c
    ensures c !in UPPER ==> LowerChar(c) == c
  {
    AlphabetsAreLists();
    ListsAre(LOWER, 'a', c);
    ListsAre(UPPER, 'A', c);
    ListsAre(DIGITS, '0', c);
  }

  function Upper(s: string): (r: string)
    ensures |r| == |s| && forall i | 0 <= i < |s| :: r[i] == UpperChar(s[i])
  {
    seq(|s|, i requires 0 <= i < |s| => UpperChar(s[i]))
  }

  function Lower(s: string): (r: string)
    ensures |r| == |s| && forall i | 0 <= i < |s| :: r[i] == LowerChar(s[i])
  {
    seq(|s|, i requires 0 <= i < |s| => LowerChar(s[i]))
  }

  // ---------------------------------------------------------------------------------------------
  // relation_type: the independent definition
  // ---------------------------------------------------------------------------------------------

  /** The words of a text: its maximal runs of ASCII alphanumerics, upper-cased. */
  function Words(s: string): seq<string> {
    if s == [] then []
    else
      var rest, last := Words(s[..|s| - 1]), s[|s| - 1];
      if !IsAlphanumeric(last) then rest
      else if |s| >= 2 && IsAlphanumeric(s[|s| - 2]) && rest != []
      then rest[..|rest| - 1] + [rest[|rest| - 1] + [UpperChar(last)]]
      else rest + [[UpperChar(last)]]
  }

  /** Words joined by single underscores. */
  function Join(words: seq<string>): string {
    if words == [] then ""
    else if |words| == 1 then words[0]
    else Join(words[..|words| - 1]) + "_" + words[|words| - 1]
  }

  /** `trim_matches('_')`. */
  function TrimUnderscores(s: string): string {
    if s != [] && s[0] == '_' then TrimUnderscores(s[1..])
    else if s != [] && s[|s| - 1] == '_' then TrimUnderscores(s[..|s| - 1])
    else s
  }

  /** A word as `Words` yields it. */
  ghost predicate IsWord(w: string) {
    w != [] && forall i | 0 <= i < |w| :: IsAlphanumeric(w[i]) && !IsLower(w[i])
  }

  lemma {:induction false} WordsAreWords(s: string)
    ensures forall w | w in Words(s) :: IsWord(w)
    ensures s != [] && IsAlphanumeric(s[|s| - 1]) ==> Words(s) != []
    decreases |s|
  {
    if s != [] {
      WordsAreWords(s[..|s| - 1]);
      var rest, last := Words(s[..|s| - 1]), s[|s| - 1];
      if IsAlphanumeric(last) {
        assert IsWord([UpperChar(last)]);
        if rest != [] {
          var w := rest[|rest| - 1];
          assert w in rest && IsWord(w);
          assert IsWord(w + [UpperChar(last)]);
        }
        assert forall w | w in Words(s) ::
               w in rest || w == [UpperChar(last)] || (rest != [] && w == rest[|rest| - 1] + [UpperChar(last)]);
      }
    }
  }

  predicate EndsInWord(s: string) {
    s != [] && IsAlphanumeric(s[|s| - 1])
  }

  function ExtendLast(words: seq<string>, c: char): seq<string>
    requires words != []
  {
    words[..|words| - 1] + [words[|words| - 1] + [c]]
  }

  /** One more character: it is dropped, extends the last word, or starts a new one. */
  lemma WordsSnoc(s: string, c: char)
    ensures EndsInWord(s) ==> Words(s) != []
    ensures Words(s + [c]) == if !IsAlphanumeric(c) then Words(s)
                              else if EndsInWord(s) then ExtendLast(Words(s), UpperChar(c))
                              else Words(s) + [[UpperChar(c)]]
  {
    WordsAreWords(s);
    var u := s + [c];
    assert u[..|u| - 1] == s && u[|u| - 1] == c;
    assert s != [] ==> u[|u| - 2] == s[|s| - 1];
  }

  /** Splitting at a separator splits the words. */
  lemma {:induction false} WordsSplit(s: string, separator: char, t: string)
    requires !IsAlphanumeric(separator)
    ensures Words(s + [separator] + t) == Words(s) + Words(t)
    decreases |t|
  {
    var before := s + [separator];
    if t == [] {
      assert before + t == before;
      WordsSnoc(s, separator);
    } else {
      var front, c := t[..|t| - 1], t[|t| - 1];
      WordsSplit(s, separator, front);
      assert t == front + [c] && before + t == (before + front) + [c];
      WordsSnoc(before + front, c);
      WordsSnoc(front, c);
      assert EndsInWord(before + front) == EndsInWord(front);
      if Words(front) != [] { ExtendLastOfAppended(Words(s), Words(front), UpperChar(c)); }
    }
  }

  lemma ExtendLastOfAppended(xs: seq<string>, ys: seq<string>, c: char)
    requires ys != []
    ensures ExtendLast(xs + ys, c) == xs + ExtendLast(ys, c)
  {
  }

  /** A run of alphanumerics is one word. */
  lemma {:induction false} WordsOfRun(w: string)
    requires w != [] && forall i | 0 <= i < |w| :: IsAlphanumeric(w[i])
    ensures Words(w) == [Upper(w)]
    decreases |w|
  {
    var front, c := w[..|w| - 1], w[|w| - 1];
    assert w == front + [c] && Upper(w) == Upper(front) + [UpperChar(c)];
    WordsSnoc(front, c);
    if front != [] {
      WordsOfRun(front);
      assert ExtendLast([Upper(front)], UpperChar(c)) == [Upper(w)];
    } else {
      assert Words(w) == [] + [[UpperChar(c)]] && Upper(w) == [UpperChar(c)];
    }
  }

  lemma {:induction false} JoinEnds(words: seq<string>)
    requires words != [] && forall w | w in words :: IsWord(w)
    ensures Join(words) != [] && Join(words)[0] != '_' && Join(words)[|Join(words)| - 1] != '_'
    decreases |words|
  {
    if |words| > 1 { JoinEnds(words[..|words| - 1]); }
    assert IsWord(words[|words| - 1]);
  }

  /**
   * `relation_type`: one pass with a flag and a final trim computes the words of the input, joined by
   * one underscore.
   */
  method RelationType(input: string) returns (r: string)
    ensures r == Join(Words(input))
  {
    var lastWasUnderscore := false;
    var relation: string := [];
    for n := 0 to |input|
      invariant Scanned(input[..n], relation, lastWasUnderscore)
    {
      assert input[..n + 1] == input[..n] + [input[n]];
      if IsAlphanumeric(input[n]) {
        ScanWord(input[..n], relation, lastWasUnderscore, input[n]);
        relation := relation + [UpperChar(input[n])];
        lastWasUnderscore := false;
      } else {
        ScanSeparator(input[..n], relation, lastWasUnderscore, input[n]);
        if !lastWasUnderscore {
          relation := relation + ['_'];
          lastWasUnderscore := true;
        }
      }
    }
    assert input[..|input|] == input;
    r := TrimUnderscores(relation);
    ScanEnds(input, relation, lastWasUnderscore);
  }

  function Lead(prefix: string): string {
    if prefix != [] && !IsAlphanumeric(prefix[0]) then "_" else ""
  }

  function Trail(prefix: string): string {
    if prefix != [] && !IsAlphanumeric(prefix[|prefix| - 1]) && Words(prefix) != [] then "_" else ""
  }

  /** Where the pass stands after a prefix: its joined words, with an underscore for each outer separator. */
  ghost predicate Scanned(prefix: string, relation: string, lastWasUnderscore: bool) {
    && (lastWasUnderscore <==> prefix != [] && !IsAlphanumeric(prefix[|prefix| - 1]))
    && relation == Lead(prefix) + Join(Words(prefix)) + Trail(prefix)
  }

  lemma ScanEnds(input: string, relation: string, lastWasUnderscore: bool)
    requires Scanned(input, relation, lastWasUnderscore)
    ensures TrimUnderscores(relation) == Join(Words(input))
  {
    WordsAreWords(input);
    TrimsToJoin(Lead(input), Words(input), Trail(input));
  }

  lemma ScanWord(prefix: string, relation: string, lastWasUnderscore: bool, ch: char)
    requires Scanned(prefix, relation, lastWasUnderscore) && IsAlphanumeric(ch)
    ensures Scanned(prefix + [ch], relation + [UpperChar(ch)], false)
  {
    JoinGrows(prefix, ch);
    LastCharacter(prefix, ch);
    Regroup(Lead(prefix), Join(Words(prefix)), Trail(prefix), [UpperChar(ch)]);
  }

  lemma LastCharacter(prefix: string, ch: char)
    requires IsAlphanumeric(ch)
    ensures prefix + [ch] != [] && (prefix + [ch])[|prefix + [ch]| - 1] == ch
    ensures Lead(prefix + [ch]) == Lead(prefix) && Trail(prefix + [ch]) == ""
  {
  }

  lemma Regroup(a: string, b: string, c: string, d: string)
    ensures (a + b + c) + d == a + (b + c + d) + ""
  {
  }

  lemma ScanSeparator(prefix: string, relation: string, lastWasUnderscore: bool, ch: char)
    requires Scanned(prefix, relation, lastWasUnderscore) && !IsAlphanumeric(ch)
    ensures Scanned(prefix + [ch], if lastWasUnderscore then relation else relation + ['_'], true)
  {
    WordsSnoc(prefix, ch);
    if prefix != [] && Words(prefix) == [] { WordlessStart(prefix); }
    var lead, joined := Lead(prefix), Join(Words(prefix));
    if prefix == [] {
      assert relation == [] && Lead(prefix + [ch]) == "_" && Words(prefix) == [];
    } else {
      assert Lead(prefix + [ch]) == lead;
      assert Trail(prefix + [ch]) == if Words(prefix) != [] then "_" else "";
      if !lastWasUnderscore {
        assert Words(prefix) != [] && Trail(prefix) == "";
        assert (lead + joined + "") + ['_'] == lead + joined + "_";
      }
    }
  }

  /** A prefix without words holds separators only. */
  lemma WordlessStart(prefix: string)
    requires prefix != [] && Words(prefix) == []
    ensures !IsAlphanumeric(prefix[0]) && !IsAlphanumeric(prefix[|prefix| - 1])
    decreases |prefix|
  {
    WordsAreWords(prefix);
    if |prefix| > 1 { WordlessStart(prefix[..|prefix| - 1]); }
  }

  lemma JoinGrows(prefix: string, ch: char)
    requires IsAlphanumeric(ch)
    ensures Words(prefix + [ch]) != []
    ensures Join(Words(prefix + [ch])) == Join(Words(prefix)) + Trail(prefix) + [UpperChar(ch)]
  {
    WordsSnoc(prefix, ch);
    if EndsInWord(prefix) {
      JoinExtended(Words(prefix), UpperChar(ch));
    } else {
      JoinSnoc(Words(prefix), [UpperChar(ch)]);
    }
  }

  lemma JoinExtended(words: seq<string>, c: char)
    requires words != []
    ensures Join(ExtendLast(words, c)) == Join(words) + [c]
  {
    var init, last := words[..|words| - 1], words[|words| - 1];
    JoinSnoc(init, last);
    JoinSnoc(init, last + [c]);
    assert words == init + [last];
  }

  lemma JoinSnoc(words: seq<string>, w: string)
    ensures Join(words + [w]) == if words == [] then w else Join(words) + "_" + w
  {
    assert (words + [w])[..|words + [w]| - 1] == words;
  }

  lemma TrimsToJoin(lead: string, words: seq<string>, trail: string)
    requires lead == [] || lead == "_"
    requires trail == [] || (trail == "_" && words != [])
    requires forall w | w in words :: IsWord(w)
    ensures TrimUnderscores(lead + Join(words) + trail) == Join(words)
  {
    var joined := Join(words);
    if words != [] { JoinEnds(words); }
    assert TrimUnderscores(joined) == joined;
    assert (joined + trail)[..|joined|] == joined;
    assert TrimUnderscores(joined + trail) == joined;
    assert (lead + joined + trail)[|lead|..] == joined + trail;
  }

  // ---------------------------------------------------------------------------------------------
  // Reading the words back
  // ---------------------------------------------------------------------------------------------

  lemma SnocKeepsSameWords(s: string, t: string, c: char, d: char)
    requires Words(s) == Words(t) && EndsInWord(s) == EndsInWord(t)
    requires IsAlphanumeric(c) == IsAlphanumeric(d) && UpperChar(c) == UpperChar(d)
    ensures Words(s + [c]) == Words(t + [d])
  {
    WordsSnoc(s, c);
    WordsSnoc(t, d);
  }

  /** The words of a text survive changing the case of the text. */
  lemma {:induction false} WordsIgnoreCase(s: string)
    ensures Words(Lower(s)) == Words(s)
    decreases |s|
  {
    if s != [] {
      var front, c := s[..|s| - 1], s[|s| - 1];
      WordsIgnoreCase(front);
      SnocKeepsSameWords(Lower(front), front, LowerChar(c), c);
      assert s == front + [c] && Lower(s) == Lower(front) + [LowerChar(c)];
    }
  }

  /** Joining words and splitting again gives the same words. */
  lemma {:induction false} WordsOfJoin(words: seq<string>)
    requires forall w | w in words :: IsWord(w)
    ensures Words(Join(words)) == words
    decreases |words|
  {
    if words != [] {
      var rest, last := words[..|words| - 1], words[|words| - 1];
      WordsOfJoin(rest);
      assert IsWord(last) && words == rest + [last];
      WordsOfRun(last);
      assert Upper(last) == last;
      JoinSnoc(rest, last);
      if rest != [] { WordsSplit(Join(rest), '_', last); }
    }
  }

  function Relation(input: string): string {
    Join(Words(input))
  }

  /** `normalize_identifier`, and the priority and memory-kind names built on it. */
  function Identifier(input: string): string {
    Lower(Relation(input))
  }

  /** A word in lower case is its own identifier. */
  lemma LowerWordIsIdentifier(w: string)
    requires w != [] && forall i | 0 <= i < |w| :: IsLower(w[i])
    ensures Identifier(w) == w
  {
    WordsOfRun(w);
  }

  method NormalizeIdentifier(input: string) returns (r: string)
    ensures r == Identifier(input)
  {
    var relation := RelationType(input);
    r := Lower(relation);
  }

  lemma LowerTwice(s: string)
    ensures Lower(Lower(s)) == Lower(s)
  {
  }

  lemma RelationKeepsWords(input: string)
    ensures Words(Relation(input)) == Words(input) && Words(Identifier(input)) == Words(input)
  {
    WordsAreWords(input);
    WordsOfJoin(Words(input));
    WordsIgnoreCase(Relation(input));
  }

  /** Both normalisers are idempotent, and two inputs normalise alike exactly when they have the same words. */
  lemma NormalisersAreCanonical(a: string, b: string)
    ensures Relation(Relation(a)) == Relation(a)
    ensures Identifier(Identifier(a)) == Identifier(a)
    ensures Relation(a) == Relation(b) <==> Words(a) == Words(b)
    ensures Identifier(a) == Identifier(b) <==> Words(a) == Words(b)
  {
    RelationKeepsWords(a);
    RelationKeepsWords(b);
  }

  // ---------------------------------------------------------------------------------------------
  // Trimming
  // ---------------------------------------------------------------------------------------------

  /** The code points of Unicode's White_Space property, which `str::trim` strips. */
  predicate IsWhitespace(c: char) {
    var p := c as int;
    0x9 <= p <= 0xD || p == 0x20 || p == 0x85 || p == 0xA0 || p == 0x1680 || 0x2000 <= p <= 0x200A
      || p == 0x2028 || p == 0x2029 || p == 0x202F || p == 0x205F || p == 0x3000
  }

  function Trim(s: string): (r: string)
    ensures r != [] ==> !IsWhitespace(r[0]) && !IsWhitespace(r[|r| - 1])
    ensures s != [] && !IsWhitespace(s[0]) && !IsWhitespace(s[|s| - 1]) ==> r == s
    ensures |r| <= |s| && forall c | c in r :: c in s
  {
    if s == [] then s
    else if IsWhitespace(s[0]) then Trim(s[1..])
    else if IsWhitespace(s[|s| - 1]) then Trim(s[..|s| - 1])
    else s
  }

  /** `s[i..j]` is all that is left of `s` without its outer blanks. */
  ghost predicate IsMiddle(s: string, i: nat, j: nat) {
    && i <= j <= |s|
    && (forall k | 0 <= k < i :: IsWhitespace(s[k])) && (forall k | j <= k < |s| :: IsWhitespace(s[k]))
    && (i < j ==> !IsWhitespace(s[i]) && !IsWhitespace(s[j - 1]))
  }

  lemma MiddleAfterBlank(s: string, i: nat, j: nat)
    requires s != [] && IsWhitespace(s[0]) && IsMiddle(s[1..], i, j)
    ensures IsMiddle(s, i + 1, j + 1) && s[i + 1..j + 1] == s[1..][i..j]
  {
    assert forall k | 1 <= k < |s| :: s[k] == s[1..][k - 1];
  }

  lemma MiddleBeforeBlank(s: string, i: nat, j: nat)
    requires s != [] && IsWhitespace(s[|s| - 1]) && IsMiddle(s[..|s| - 1], i, j)
    ensures IsMiddle(s, i, j) && s[i..j] == s[..|s| - 1][i..j]
  {
    assert forall k | 0 <= k < |s| - 1 :: s[k] == s[..|s| - 1][k];
  }

  /** Trimming takes the part between the outer blanks. */
  lemma {:induction false} TrimIsTheMiddle(s: string) returns (i: nat, j: nat)
    ensures IsMiddle(s, i, j) && Trim(s) == s[i..j]
    decreases |s|
  {
    if s == [] {
      i, j := 0, 0;
    } else if IsWhitespace(s[0]) {
      var m, n := TrimIsTheMiddle(s[1..]);
      MiddleAfterBlank(s, m, n);
      i, j := m + 1, n + 1;
    } else if IsWhitespace(s[|s| - 1]) {
      i, j := TrimIsTheMiddle(s[..|s| - 1]);
      MiddleBeforeBlank(s, i, j);
    } else {
      i, j := 0, |s|;
    }
  }

  lemma TrimTwice(s: string)
    ensures Trim(Trim(s)) == Trim(s)
  {
  }

  predicate IsBlank(s: string) {
    forall c | c in s :: IsWhitespace(c)
  }

  lemma {:induction false} TrimLeading(before: string, s: string)
    requires IsBlank(before)
    ensures Trim(before + s) == Trim(s)
    decreases |before|
  {
    if before == [] {
      assert before + s == s;
    } else {
      assert (before + s)[0] == before[0] && (before + s)[1..] == before[1..] + s;
      TrimLeading(before[1..], s);
    }
  }

  lemma {:induction false} TrimTrailing(s: string, after: string)
    requires IsBlank(after)
    ensures Trim(s + after) == Trim(s)
    decreases |s| + |after|
  {
    if after == [] {
      assert s + after == s;
    } else if s == [] {
      assert s + after == after + [];
      TrimLeading(after, []);
    } else if IsWhitespace(s[0]) {
      assert (s + after)[1..] == s[1..] + after;
      TrimTrailing(s[1..], after);
    } else {
      assert (s + after)[..|s + after| - 1] == s + after[..|after| - 1];
      assert (s + after)[|s + after| - 1] == after[|after| - 1];
      TrimTrailing(s, after[..|after| - 1]);
    }
  }

  /** Blanks around a text make no difference. */
  lemma TrimIgnoresOuterBlanks(before: string, s: string, after: string)
    requires IsBlank(before) && IsBlank(after)
    ensures Trim(before + s + after) == Trim(s)
  {
    TrimTrailing(before + s, after);
    TrimLeading(before, s);
  }

  function Label(s: string): string {
    Lower(Trim(s))
  }

  /** A label is the part of the text between outer blanks, in lower case. */
  lemma LabelIsTheMiddle(s: string) returns (i: nat, j: nat)
    ensures IsMiddle(s, i, j)
    ensures |Label(s)| == j - i && forall k | i <= k < j ::
              Label(s)[k - i] == if 'A' <= s[k] <= 'Z' then s[k] - 'A' + 'a' else s[k]
  {
    i, j := TrimIsTheMiddle(s);
  }

  lemma LabelTwice(s: string)
    ensures Label(Label(s)) == Label(s)
  {
    var t := Trim(s);
    if t != [] {
      assert forall c: char :: IsWhitespace(LowerChar(c)) ==> IsWhitespace(c);
      assert Trim(Lower(t)) == Lower(t);
    }
    LowerTwice(t);
  }

  /** `normalize_task_owner`: trimmed, and dropped when nothing is left. */
  function Owner(owner: Option<string>): Option<string> {
    match owner
    case None => None
    case Some(value) => if Trim(value) == [] then None else Some(Trim(value))
  }

  /** An owner is the part of the text between outer blanks, and a blank text is no owner. */
  lemma OwnerIsTheMiddle(value: string) returns (i: nat, j: nat)
    ensures IsMiddle(value, i, j)
    ensures Owner(Some(value)) == if i == j then None else Some(value[i..j])
    ensures Owner(None) == None
  {
    i, j := TrimIsTheMiddle(value);
  }

  /** The owner that a text names: the part between its outer blanks, or nobody when nothing is left. */
  ghost predicate NamesOwner(value: string, owner: Option<string>) {
    exists i: nat, j: nat | IsMiddle(value, i, j) :: owner == if i == j then None else Some(value[i..j])
  }

  lemma MiddleIsUnique(s: string, i: nat, j: nat, m: nat, n: nat)
    requires IsMiddle(s, i, j) && IsMiddle(s, m, n)
    ensures if i == j then m == n else i == m && j == n
  {
  }

  lemma OwnerIsTheNamedOne(value: string, owner: Option<string>)
    ensures NamesOwner(value, owner) <==> owner == Owner(Some(value))
  {
    var i, j := OwnerIsTheMiddle(value);
    if NamesOwner(value, owner) {
      var m: nat, n: nat :| IsMiddle(value, m, n) && owner == if m == n then None else Some(value[m..n]);
      MiddleIsUnique(value, i, j, m, n);
    }
  }

  lemma OwnerTwice(owner: Option<string>)
    ensures Owner(Owner(owner)) == Owner(owner)
  {
    if owner.Some? { TrimTwice(owner.value); }
  }

  // ---------------------------------------------------------------------------------------------
  // Lists
  // ---------------------------------------------------------------------------------------------

  /** The order of strings by code point. */
  predicate TextAtMost(a: string, b: string) {
    a == [] || (b != [] && (a[0] < b[0] || (a[0] == b[0] && TextAtMost(a[1..], b[1..]))))
  }

  lemma {:induction false} TextTotal(a: string, b: string)
    ensures TextAtMost(a, b) || TextAtMost(b, a)
    ensures TextAtMost(a, b) && TextAtMost(b, a) ==> a == b
    decreases |a|
  {
    if a != [] && b != [] {
      TextTotal(a[1..], b[1..]);
      assert a == [a[0]] + a[1..] && b == [b[0]] + b[1..];
    }
  }

  lemma {:induction false} TextTransitive(a: string, b: string, c: string)
    requires TextAtMost(a, b) && TextAtMost(b, c)
    ensures TextAtMost(a, c)
    decreases |a|
  {
    if a != [] && b != [] && c != [] && a[0] == b[0] && b[0] == c[0] {
      TextTransitive(a[1..], b[1..], c[1..]);
    }
  }

  lemma TextOrder()
    ensures TotalOrder(TextAtMost)
  {
    forall a, b
      ensures TextAtMost(a, b) || TextAtMost(b, a)
      ensures TextAtMost(a, b) && TextAtMost(b, a) ==> a == b
    {
      TextTotal(a, b);
    }
    forall a, b, c | TextAtMost(a, b) && TextAtMost(b, c) ensures TextAtMost(a, c) { TextTransitive(a, b, c); }
  }

  /** `r` lists, in strictly increasing order, exactly the non-empty normalised values. */
  ghost predicate IsNormalList(f: string -> string, values: seq<string>, r: seq<string>) {
    && StrictlySorted(TextAtMost, r)
    && forall x :: x in r <==> x != [] && exists v :: v in values && f(v) == x
  }

  /** The common shape of the list normalisers: map, drop the empty, sort, drop repetitions. */
  method NormalizeList(f: string -> string, values: seq<string>) returns (r: seq<string>)
    ensures IsNormalList(f, values, r)
  {
    var kept: seq<string> := [];
    for n := 0 to |values|
      invariant forall x :: x in kept <==> x != [] && exists v :: v in values[..n] && f(v) == x
    {
      var value := f(values[n]);
      assert values[..n + 1] == values[..n] + [values[n]];
      if value != [] { kept := kept + [value]; }
    }
    assert values[..|values|] == values;
    TextOrder();
    var sorted := Sort(TextAtMost, kept);
    SameMultisetSameElements(sorted, kept);
    DedupOfSortedIsStrict(TextAtMost, sorted);
    r := Dedup(sorted);
  }

  method NormalizeIdentifierList(values: seq<string>) returns (r: seq<string>)
    ensures IsNormalList(Identifier, values, r)
  {
    r := NormalizeList(Identifier, values);
  }

  method NormalizeTaskLabels(labels: seq<string>) returns (r: seq<string>)
    ensures IsNormalList(Label, labels, r)
  {
    r := NormalizeList(Label, labels);
  }

  /** The normal form of a label list, label by label. */
  function NormalLabels(labels: seq<string>): seq<string> {
    if labels == [] then [] else InsertLabel(Label(labels[0]), NormalLabels(labels[1..]))
  }

  function InsertLabel(x: string, xs: seq<string>): seq<string> {
    if x == [] then xs
    else if xs == [] then [x]
    else if x == xs[0] then xs
    else if TextAtMost(x, xs[0]) then [x] + xs
    else [xs[0]] + InsertLabel(x, xs[1..])
  }

  lemma {:induction false} InsertLabelMembers(x: string, xs: seq<string>)
    ensures forall y :: y in InsertLabel(x, xs) <==> y in xs || (y == x && x != [])
    decreases |xs|
  {
    if xs != [] {
      InsertLabelMembers(x, xs[1..]);
      assert xs == [xs[0]] + xs[1..];
    }
  }

  lemma {:induction false} InsertLabelKeepsSorted(x: string, xs: seq<string>)
    requires StrictlySorted(TextAtMost, xs)
    ensures StrictlySorted(TextAtMost, InsertLabel(x, xs))
    decreases |xs|
  {
    TextOrder();
    if x != [] && xs != [] && x != xs[0] {
      if TextAtMost(x, xs[0]) {
        assert forall j | 0 <= j < |xs| :: TextAtMost(xs[0], xs[j]) && TextAtMost(x, xs[j]) && x != xs[j];
      } else {
        var rest := InsertLabel(x, xs[1..]);
        InsertLabelKeepsSorted(x, xs[1..]);
        InsertLabelMembers(x, xs[1..]);
        forall j | 0 <= j < |rest| ensures TextAtMost(xs[0], rest[j]) && xs[0] != rest[j] {
          assert rest[j] in rest;
        }
      }
    }
  }

  lemma {:induction false} NormalLabelsAreNormal(labels: seq<string>)
    ensures IsNormalList(Label, labels, NormalLabels(labels))
  {
    if labels != [] {
      NormalLabelsAreNormal(labels[1..]);
      InsertLabelMembers(Label(labels[0]), NormalLabels(labels[1..]));
      InsertLabelKeepsSorted(Label(labels[0]), NormalLabels(labels[1..]));
      assert labels == [labels[0]] + labels[1..];
    }
  }

  /** Sorting and removing repetitions yields the same list as inserting label by label. */
  lemma NormalLabelsAreTheNormalList(labels: seq<string>, r: seq<string>)
    ensures IsNormalList(Label, labels, r) <==> r == NormalLabels(labels)
  {
    NormalLabelsAreNormal(labels);
    if IsNormalList(Label, labels, r) { NormalListIsUnique(Label, labels, r, NormalLabels(labels)); }
  }

  lemma LabelsTwice(labels: seq<string>)
    ensures NormalLabels(NormalLabels(labels)) == NormalLabels(labels)
  {
    NormalLabelsAreNormal(labels);
    NormalLabelsAreNormal(NormalLabels(labels));
    NormalListsAreIdempotent(labels, NormalLabels(labels), NormalLabels(NormalLabels(labels)));
  }

  /** The normal list of given values is unique, so it does not depend on how the sort works. */
  lemma NormalListIsUnique(f: string -> string, values: seq<string>, r: seq<string>, q: seq<string>)
    requires IsNormalList(f, values, r) && IsNormalList(f, values, q)
    ensures r == q
  {
    TextOrder();
    StrictlySortedIsUnique(TextAtMost, r, q);
  }

  /** With an idempotent normaliser, a normal list is its own normal list. */
  lemma NormalListIsFixed(f: string -> string, values: seq<string>, r: seq<string>, again: seq<string>)
    requires forall s :: f(f(s)) == f(s)
    requires IsNormalList(f, values, r) && IsNormalList(f, r, again)
    ensures again == r
  {
    forall x ensures x in r <==> x in again {
      if x in r { var v :| v in values && f(v) == x; assert f(x) == x; }
      if x in again { var v :| v in r && f(v) == x; var u :| u in values && f(u) == v; assert x == v; }
    }
    TextOrder();
    StrictlySortedIsUnique(TextAtMost, r, again);
  }

  lemma NormalListsAreIdempotent(values: seq<string>, r: seq<string>, again: seq<string>)
    ensures IsNormalList(Identifier, values, r) && IsNormalList(Identifier, r, again) ==> again == r
    ensures IsNormalList(Label, values, r) && IsNormalList(Label, r, again) ==> again == r
  {
    forall s ensures Identifier(Identifier(s)) == Identifier(s) { NormalisersAreCanonical(s, s); }
    forall s ensures Label(Label(s)) == Label(s) { LabelTwice(s); }
    if IsNormalList(Identifier, values, r) && IsNormalList(Identifier, r, again) {
      NormalListIsFixed(Identifier, values, r, again);
    }
    if IsNormalList(Label, values, r) && IsNormalList(Label, r, again) { NormalListIsFixed(Label, values, r, again); }
  }
}
