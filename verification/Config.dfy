// Configuration and command text: "key=value" pieces separated by one
// character, with '#' starting a comment.
module Config {
  import opened Wrappers

  const COMMENT_CHAR := '#'

  predicate IsSpace(c: char): (r: bool)
    ensures r <==> c in " \t"
  {
    c == ' ' || c == '\t'
  }

  predicate Blank(s: string) { forall c | c in s :: IsSpace(c) }

  // Neither end is a space.
  predicate Trimmed(s: string) { s != [] ==> !IsSpace(s[0]) && !IsSpace(s[|s| - 1]) }

  // ---- Trim ----

  // s without the spaces at its ends.
  ghost predicate IsTrimOf(t: string, s: string) {
    Trimmed(t) && exists i, j :: 0 <= i <= j <= |s| && t == s[i..j] && Blank(s[..i]) && Blank(s[j..])
  }

  function TrimStart(s: string): string {
    if s != [] && IsSpace(s[0]) then TrimStart(s[1..]) else s
  }

  function TrimEnd(s: string): string {
    if s != [] && IsSpace(s[|s| - 1]) then TrimEnd(s[..|s| - 1]) else s
  }

  function TrimOf(s: string): string { TrimEnd(TrimStart(s)) }

  lemma {:induction false} TrimStartAt(s: string, i: nat)
    requires i <= |s| && Blank(s[..i]) && (i < |s| ==> !IsSpace(s[i]))
    ensures TrimStart(s) == s[i..]
    decreases i
  {
    if i > 0 {
      assert s[0] in s[..i] && s[1..][..i - 1] == s[..i][1..];
      TrimStartAt(s[1..], i - 1);
      assert s[1..][i - 1..] == s[i..];
    }
  }

  lemma {:induction false} TrimEndAt(s: string, j: nat)
    requires j <= |s| && Blank(s[j..]) && (j > 0 ==> !IsSpace(s[j - 1]))
    ensures TrimEnd(s) == s[..j]
    decreases |s| - j
  {
    if j < |s| {
      assert s[|s| - 1] == s[j..][|s| - 1 - j];
      assert s[..|s| - 1][j..] == s[j..][..|s| - 1 - j];
      TrimEndAt(s[..|s| - 1], j);
      assert s[..|s| - 1][..j] == s[..j];
    }
  }

  lemma TrimmedUnchanged(s: string)
    requires Trimmed(s)
    ensures TrimOf(s) == s
  {
  }

  lemma NothingToTrim()
    ensures TrimOf("") == "" && TrimEnd("") == ""
  {
  }

  method Trim(str: string) returns (t: string)
    ensures t == TrimOf(str) && IsTrimOf(t, str)
  {
    hide TrimStart, TrimEnd;
    if str == [] {
      NothingToTrim();
      assert str == str[0..0];
      return str;
    }
    var i := 0;
    while i < |str| && IsSpace(str[i])
      invariant 0 <= i <= |str| && Blank(str[..i])
    {
      assert str[..i + 1] == str[..i] + [str[i]];
      i := i + 1;
    }
    TrimStartAt(str, i);
    if i == |str| {
      NothingToTrim();
      assert str[..i] == str && str[0..0] == [] && str[0..] == str;
      return "";
    }
    var startPos := i;
    i := |str| - 1;
    while i >= 0 && IsSpace(str[i])
      invariant startPos <= i < |str| && Blank(str[i + 1..])
      decreases i
    {
      assert str[i..] == [str[i]] + str[i + 1..];
      i := i - 1;
    }
    var endPos := i;
    t := str[startPos..startPos + (endPos - startPos + 1)];
    assert str[startPos..][endPos + 1 - startPos..] == str[endPos + 1..];
    TrimEndAt(str[startPos..], endPos + 1 - startPos);
    assert str[startPos..][..endPos + 1 - startPos] == t == str[startPos..endPos + 1];
  }

  // ---- one line ----

  // string::find: the first position of c from i on, or |s|.
  function Find(s: string, c: char, i: nat): (p: nat)
    requires i <= |s|
    ensures i <= p <= |s|
    ensures p < |s| ==> s[p] == c
    ensures forall j | i <= j < p :: s[j] != c
    decreases |s| - i
  {
    if i == |s| || s[i] == c then i else Find(s, c, i + 1)
  }

  // string::substr; a negative int count becomes a huge size_t.
  function Substr(s: string, pos: nat, count: int): string
    requires pos <= |s|
  {
    if count < 0 || pos + count > |s| then s[pos..] else s[pos..pos + count]
  }

  // What AnalyseLine returns, with None for false.
  function Analyse(line: string): Option<(string, string)> {
    var comment := Find(line, COMMENT_CHAR, 0);
    var endPos := comment - 1;
    if line == [] || comment == 0 then None
    else
      var newLine := Substr(line, 0, 1 - endPos);
      var pos := Find(newLine, '=', 0);
      if pos == |newLine| then None
      else
        var key := TrimOf(newLine[..pos]);
        if key == [] then None
        else Some((key, TrimOf(Substr(newLine, pos + 1, endPos + 1 - (pos + 1)))))
  }

  method AnalyseLine(line: string) returns (ok: bool, key: string, value: string)
    ensures ok <==> Analyse(line).Some?
    ensures ok ==> Analyse(line) == Some((key, value))
  {
    hide TrimOf, IsTrimOf, Find;
    key, value := "", "";
    if line == [] {
      return false, key, value;
    }
    var endPos := |line| - 1;
    var pos := Find(line, COMMENT_CHAR, 0);
    if pos != |line| {
      if pos == 0 {
        return false, key, value;
      }
      endPos := pos - 1;
    }
    var newLine := Substr(line, 0, 0 + 1 - endPos);
    pos := Find(newLine, '=', 0);
    if pos == |newLine| {
      return false, key, value;
    }
    key := Substr(newLine, 0, pos);
    value := Substr(newLine, pos + 1, endPos + 1 - (pos + 1));
    key := Trim(key);
    if key == [] {
      return false, key, value;
    }
    value := Trim(value);
    ok := true;
  }

  // What the comments of AnalyseLine describe: the text before '#', cut at its
  // first '='.
  function Intended(line: string): Option<(string, string)> {
    var content := line[..Find(line, COMMENT_CHAR, 0)];
    var pos := Find(content, '=', 0);
    if pos == |content| then None
    else
      var key := TrimOf(content[..pos]);
      if key == [] then None else Some((key, TrimOf(content[pos + 1..])))
  }

  // Two kinds of line are read differently: two characters "k=" before the
  // comment, and at least three characters without '=' before a comment that
  // contains one. Both come from the length given to the first substr.
  predicate Misread(line: string) {
    var n := Find(line, COMMENT_CHAR, 0);
    || (n == 2 && line[1] == '=' && line[0] != '=' && !IsSpace(line[0]))
    || (n >= 3 && Find(line, '=', 0) > n && Find(line, '=', 0) < |line|)
  }

  lemma {:induction false} FindPrefix(s: string, c: char, i: nat, n: nat)
    requires i <= n <= |s|
    ensures Find(s[..n], c, i) == if Find(s, c, i) < n then Find(s, c, i) else n
    decreases n - i
  {
    if i < n && s[i] != c {
      FindPrefix(s, c, i + 1, n);
    }
  }

  lemma TrimKeepsMark(s: string, c: char)
    requires c in s && !IsSpace(c)
    ensures TrimOf(s) != []
  {
    TrimStartKeeps(s, c);
    TrimEndKeeps(TrimStart(s), c);
  }

  lemma {:induction false} TrimStartKeeps(s: string, c: char)
    requires c in s && !IsSpace(c)
    ensures c in TrimStart(s)
  {
    if IsSpace(s[0]) {
      assert s == [s[0]] + s[1..];
      TrimStartKeeps(s[1..], c);
    }
  }

  lemma {:induction false} TrimEndKeeps(s: string, c: char)
    requires c in s && !IsSpace(c)
    ensures c in TrimEnd(s)
  {
    if IsSpace(s[|s| - 1]) {
      assert s == s[..|s| - 1] + [s[|s| - 1]];
      TrimEndKeeps(s[..|s| - 1], c);
    }
  }

  // AnalyseLine does what its comments say on a line if and only if the line
  // is of neither kind.
  lemma ReadAsIntendedIff(line: string)
    ensures Analyse(line) == Intended(line) <==> !Misread(line)
  {
    hide TrimOf;
    var n, eq := Find(line, COMMENT_CHAR, 0), Find(line, '=', 0);
    FindPrefix(line, '=', 0, n);
    if n == 1 {
      ShortLine(line, 1);
    } else if n == 2 {
      ShortLine(line, 2);
    } else if n >= 3 {
      assert Substr(line, 0, 2 - n) == line;
      if eq < n {
        assert line[..n][..eq] == line[..eq];
        assert line[eq + 1..n] == line[..n][eq + 1..];
      } else if eq < |line| {
        assert line[..eq][n] == COMMENT_CHAR;
        TrimKeepsMark(line[..eq], COMMENT_CHAR);
      }
    }
  }

  // The two lengths at which the first substr cuts the line.
  lemma ShortLine(line: string, n: nat)
    requires n == Find(line, COMMENT_CHAR, 0) && 1 <= n <= 2
    ensures Analyse(line) == None
    ensures Intended(line) == None <==> !(n == 2 && line[1] == '=' && line[0] != '=' && !IsSpace(line[0]))
  {
    var content := line[..n];
    FindPrefix(line, '=', 0, n);
    if n == 2 && line[0] != '=' && line[1] == '=' {
      assert Find(content, '=', 1) == 1;
      assert content[..1] == [line[0]];
      TrimOne(line[0]);
    }
  }

  lemma TrimOne(c: char)
    ensures TrimOf([c]) == if IsSpace(c) then [] else [c]
  {
    assert [c][1..] == [] && [c][..0] == [];
    assert TrimStart([]) == [] && TrimEnd([]) == [];
    assert IsSpace(c) ==> TrimStart([c]) == TrimStart([]);
  }

  // A text with no '#' in it, alone or before a comment.
  lemma CommentAt(text: string, tail: string)
    requires '#' !in text && (tail == [] || tail[0] == '#')
    ensures Find(text + tail, COMMENT_CHAR, 0) == |text|
  {
    forall j | 0 <= j < |text|
      ensures (text + tail)[j] != COMMENT_CHAR
    {
      assert text[j] in text;
    }
    if tail != [] {
      assert (text + tail)[|text|] == COMMENT_CHAR;
    }
  }

  // A pair with three characters or more, with or without a comment behind it:
  // the value may contain further '=', and both sides are trimmed. Shorter ones
  // are rejected.
  lemma AnalysePair(k: string, v: string, tail: string)
    requires '=' !in k && '#' !in k && '#' !in v
    requires tail == [] || tail[0] == '#'
    ensures Analyse(k + ['='] + v + tail) ==
            if |k| + |v| < 2 || TrimOf(k) == [] then None else Some((TrimOf(k), TrimOf(v)))
  {
    hide TrimOf;
    var text := k + ['='] + v;
    var line := text + tail;
    CommentAt(text, tail);
    FirstMark(k, v + tail);
    assert line == k + ['='] + (v + tail);
    if |text| >= 3 {
      assert Substr(line, 0, 2 - |text|) == line;
      assert line[..|k|] == k && line[|k| + 1..|text|] == v;
    } else {
      ShortLine(line, |text|);
    }
  }

  lemma FirstMark(k: string, rest: string)
    requires '=' !in k
    ensures Find(k + ['='] + rest, '=', 0) == |k|
  {
    var s := k + ['='] + rest;
    assert s[|k|] == '=';
    forall j | 0 <= j < |k|
      ensures s[j] != '='
    {
      assert k[j] in k;
    }
  }

  // A line without '=' is rejected, unless it has three characters or more
  // before a comment with a '=': then the comment up to there belongs to the key
  // and what follows to the value.
  lemma AnalyseNoPair(w: string, tail: string)
    requires '=' !in w && '#' !in w && (tail == [] || tail[0] == '#')
    ensures |w| < 3 || '=' !in tail ==> Analyse(w + tail) == None
    ensures forall a, b | |w| >= 3 && tail == a + ['='] + b && '=' !in a ::
              Analyse(w + tail) == Some((TrimOf(w + a), TrimOf(b)))
  {
    hide TrimOf;
    var line := w + tail;
    CommentAt(w, tail);
    if 1 <= |w| <= 2 {
      ShortLine(line, |w|);
    }
    if '=' !in tail {
      assert '=' !in line;
    }
    forall a, b | |w| >= 3 && tail == a + ['='] + b && '=' !in a
      ensures Analyse(line) == Some((TrimOf(w + a), TrimOf(b)))
    {
      FirstMark(w + a, b);
      assert line == (w + a) + ['='] + b;
      assert Substr(line, 0, 2 - |w|) == line && line[..|w + a|] == w + a;
      assert a != [] && a[0] == tail[0];
      assert Substr(line, |w + a| + 1, |w| - (|w + a| + 1)) == b;
      assert (w + a)[|w|] == COMMENT_CHAR;
      TrimKeepsMark(w + a, COMMENT_CHAR);
    }
  }

  // ---- split ----

  function Join(pieces: seq<string>, sep: char): string
    requires pieces != []
  {
    if |pieces| == 1 then pieces[0] else pieces[0] + [sep] + Join(pieces[1..], sep)
  }

  function Occurrences(s: string, c: char): nat {
    if s == [] then 0 else (if s[0] == c then 1 else 0) + Occurrences(s[1..], c)
  }

  predicate Free(pieces: seq<string>, sep: char) { forall p | p in pieces :: sep !in p }

  lemma {:induction false} JoinAppend(pieces: seq<string>, last: string, sep: char)
    requires pieces != []
    ensures Join(pieces + [last], sep) == Join(pieces, sep) + [sep] + last
  {
    if |pieces| == 1 {
      assert (pieces + [last])[1..] == [last];
    } else {
      JoinAppend(pieces[1..], last, sep);
      assert (pieces + [last])[1..] == pieces[1..] + [last];
    }
  }

  lemma {:induction false} OccurrencesConcat(a: string, b: string, c: char)
    ensures Occurrences(a + b, c) == Occurrences(a, c) + Occurrences(b, c)
  {
    if a == [] {
      assert a + b == b;
    } else {
      OccurrencesConcat(a[1..], b, c);
      assert (a + b)[1..] == a[1..] + b;
    }
  }

  lemma {:induction false} OccurrencesFree(s: string, c: char)
    requires c !in s
    ensures Occurrences(s, c) == 0
  {
    if s != [] {
      OccurrencesFree(s[1..], c);
    }
  }

  lemma {:induction false} JoinOccurrences(pieces: seq<string>, sep: char)
    requires pieces != [] && Free(pieces, sep)
    ensures Occurrences(Join(pieces, sep), sep) == |pieces| - 1
  {
    OccurrencesFree(pieces[0], sep);
    if |pieces| > 1 {
      assert forall p | p in pieces[1..] :: p in pieces;
      JoinOccurrences(pieces[1..], sep);
      OccurrencesConcat(pieces[0] + [sep], Join(pieces[1..], sep), sep);
      OccurrencesConcat(pieces[0], [sep], sep);
    }
  }

  // The pieces of text, cut at its first separator and then in the rest.
  function Pieces(text: string, sep: char): (ps: seq<string>)
    ensures ps != []
    decreases |text|
  {
    var p := Find(text, sep, 0);
    if p == |text| then [text] else [text[..p]] + Pieces(text[p + 1..], sep)
  }

  lemma {:induction false} PiecesJoin(text: string, sep: char)
    ensures Join(Pieces(text, sep), sep) == text && Free(Pieces(text, sep), sep)
    decreases |text|
  {
    var p := Find(text, sep, 0);
    if p < |text| {
      PiecesJoin(text[p + 1..], sep);
      assert text == text[..p] + [sep] + text[p + 1..];
      assert Pieces(text, sep)[1..] == Pieces(text[p + 1..], sep);
    }
  }

  lemma {:induction false} FindAfter(s: string, c: char, i: nat, p: nat)
    requires i <= p < |s| && s[p] == c && forall j | i <= j < p :: s[j] != c
    ensures Find(s, c, i) == p
    decreases p - i
  {
    if i < p {
      FindAfter(s, c, i + 1, p);
    }
  }

  // The first separator ends the first piece.
  lemma FirstPiece(head: string, rest: string, sep: char)
    requires sep !in head
    ensures var s, p := head + [sep] + rest, Find(head + [sep] + rest, sep, 0);
            p == |head| && s[..p] == head && s[p + 1..] == rest
  {
    FindAfter(head + [sep] + rest, sep, 0, |head|);
  }

  // There is only one such list of pieces.
  lemma {:induction false} SplitIsUnique(a: seq<string>, b: seq<string>, sep: char)
    requires a != [] && b != [] && Free(a, sep) && Free(b, sep)
    requires Join(a, sep) == Join(b, sep)
    ensures a == b
  {
    JoinOccurrences(a, sep);
    JoinOccurrences(b, sep);
    if |a| > 1 {
      assert a[0] in a && b[0] in b;
      FirstPiece(a[0], Join(a[1..], sep), sep);
      FirstPiece(b[0], Join(b[1..], sep), sep);
      assert forall x | x in a[1..] :: x in a;
      assert forall x | x in b[1..] :: x in b;
      SplitIsUnique(a[1..], b[1..], sep);
      assert a == [a[0]] + a[1..] && b == [b[0]] + b[1..];
    }
  }

  // split with a pattern of one character, as all callers use it: joining the
  // pieces gives the text back, no piece contains the separator, and there is
  // one piece more than there are separators.
  method Split(text: string, sep: char) returns (result: seq<string>)
    ensures result == Pieces(text, sep)
    ensures result != [] && Join(result, sep) == text && Free(result, sep)
    ensures |result| == Occurrences(text, sep) + 1
  {
    var str := text + [sep];
    var size := |str|;
    result := [];
    var i := 0;
    while i < size
      invariant 0 <= i <= size
      invariant Free(result, sep)
      invariant result == [] <==> i == 0
      invariant result != [] ==> Join(result, sep) + [sep] == str[..i]
      decreases size - i
    {
      var pos := Find(str, sep, i);
      assert str[size - 1] == sep;
      if pos < size {
        var s := str[i..pos];
        ghost var before := result;
        result := result + [s];
        if before != [] {
          JoinAppend(before, s, sep);
        }
        assert str[..pos + 1] == str[..i] + s + [sep];
        i := pos + 1 - 1;
      }
      i := i + 1;
    }
    assert Join(result, sep) + [sep] == text + [sep];
    assert Join(result, sep) == (Join(result, sep) + [sep])[..|text|];
    JoinOccurrences(result, sep);
    PiecesJoin(text, sep);
    SplitIsUnique(result, Pieces(text, sep), sep);
  }

  // ---- a whole command ----

  // The map after one more piece.
  function Read(before: map<string, string>, piece: string): map<string, string> {
    match Analyse(piece)
    case None => before
    case Some(kv) => before[kv.0 := kv.1]
  }

  // The map after reading the pieces in order; later keys overwrite.
  function Section(pieces: seq<string>): map<string, string> {
    if pieces == [] then map[]
    else Read(Section(pieces[..|pieces| - 1]), pieces[|pieces| - 1])
  }

  lemma SectionPush(pieces: seq<string>, i: nat)
    requires i < |pieces|
    ensures Section(pieces[..i + 1]) == Read(Section(pieces[..i]), pieces[i])
  {
    assert pieces[..i + 1][..i] == pieces[..i];
  }

  lemma SectionOfNone()
    ensures Section([]) == map[]
  {
  }

  // The last piece with a key decides its value, and a key without one is
  // missing.
  lemma {:induction false} LastValueWins(pieces: seq<string>, key: string)
    ensures key in Section(pieces) <==> exists i :: 0 <= i < |pieces| && HasKey(pieces[i], key)
    ensures forall i | 0 <= i < |pieces| && HasKey(pieces[i], key) && (forall j | i < j < |pieces| :: !HasKey(pieces[j], key)) ::
              key in Section(pieces) && Analyse(pieces[i]) == Some((key, Section(pieces)[key]))
  {
    hide Analyse;
    if pieces != [] {
      var older, last := pieces[..|pieces| - 1], pieces[|pieces| - 1];
      LastValueWins(older, key);
      assert forall i | 0 <= i < |older| :: pieces[i] == older[i];
      assert HasKey(last, key) ==> HasKey(pieces[|pieces| - 1], key);
      if exists i :: 0 <= i < |older| && HasKey(older[i], key) {
        var i :| 0 <= i < |older| && HasKey(older[i], key);
        assert HasKey(pieces[i], key);
      }
    }
  }

  predicate HasKey(piece: string, key: string) { Analyse(piece).Some? && Analyse(piece).value.0 == key }

  class CONF {
    var section: map<string, string>

    constructor ()
      ensures section == map[]
    {
      section := map[];
    }

    method CONF_prase_line(data: string, pattern: char) returns (ok: bool)
      modifies this
      ensures ok
      ensures section == Section(Pieces(data, pattern))
    {
      section := map[];
      var result := Split(data, pattern);
      assert result[..0] == [];
      SectionOfNone();
      hide Section, Analyse, Pieces, Join, Free;
      for i := 0 to |result|
        invariant section == Section(result[..i])
      {
        SectionPush(result, i);
        var found, key, value := AnalyseLine(result[i]);
        if found {
          section := section[key := value];
        }
      }
      assert result[..|result|] == result;
      ok := |result| > 0;
    }

    // The empty string stands for a missing key.
    function CONF_get_string(key: string): string
      reads this
    {
      Get(section, key)
    }
  }

  function Get(section: map<string, string>, key: string): string {
    if key in section then section[key] else ""
  }

  // ---- printing and reading back ----

  datatype Pair = Pair(key: string, value: string)

  predicate Printable(p: Pair, sep: char) {
    && p.key != [] && Trimmed(p.key) && Trimmed(p.value)
    && '=' !in p.key && COMMENT_CHAR !in p.key && COMMENT_CHAR !in p.value
    && sep !in p.key && sep !in p.value && sep != '='
  }

  function PrintPair(p: Pair): string { p.key + ['='] + p.value }

  function PrintPairs(ps: seq<Pair>): (pieces: seq<string>)
    ensures |pieces| == |ps|
  {
    if ps == [] then [] else PrintPairs(ps[..|ps| - 1]) + [PrintPair(ps[|ps| - 1])]
  }

  predicate DistinctKeys(ps: seq<Pair>) { forall i, j | 0 <= i < j < |ps| :: ps[i].key != ps[j].key }

  lemma {:induction false} FindNone(s: string, c: char, i: nat)
    requires i <= |s| && c !in s
    ensures Find(s, c, i) == |s|
    decreases |s| - i
  {
    if i < |s| {
      FindNone(s, c, i + 1);
    }
  }

  // A printed pair is read back, except the two characters "k=", which are
  // rejected.
  lemma AnalysePrinted(p: Pair, sep: char)
    requires Printable(p, sep)
    ensures Analyse(PrintPair(p)) ==
            if |p.key| == 1 && p.value == [] then None else Some((p.key, p.value))
  {
    hide TrimOf, Find, Trimmed;
    var line := PrintPair(p);
    FindNone(line, COMMENT_CHAR, 0);
    FirstPiece(p.key, p.value, '=');
    TrimmedUnchanged(p.key);
    TrimmedUnchanged(p.value);
    if |line| > 2 {
      assert Substr(line, 0, 2 - |line|) == line;
      assert Substr(line, |p.key| + 1, |line| - (|p.key| + 1)) == p.value;
    }
  }

  lemma {:induction false} PrintedFree(ps: seq<Pair>, sep: char)
    requires forall p | p in ps :: Printable(p, sep)
    ensures Free(PrintPairs(ps), sep)
  {
    if ps != [] {
      var older, last := ps[..|ps| - 1], ps[|ps| - 1];
      assert last in ps && forall p | p in older :: p in ps;
      PrintedFree(older, sep);
    }
  }

  // What the section holds after reading printed pairs.
  lemma {:induction false} SectionOfPrinted(ps: seq<Pair>, sep: char)
    requires DistinctKeys(ps) && forall p | p in ps :: Printable(p, sep)
    ensures var m := Section(PrintPairs(ps));
            && (forall p | p in ps :: Get(m, p.key) == p.value)
            && (forall k | k in m :: exists p :: p in ps && p.key == k)
  {
    hide Analyse, PrintPair, Printable, Section;
    SectionOfNone();
    if ps != [] {
      var older, last := ps[..|ps| - 1], ps[|ps| - 1];
      assert ps == older + [last];
      SectionOfPrinted(older, sep);
      AnalysePrinted(last, sep);
      var pieces := PrintPairs(ps);
      SectionPush(pieces, |older|);
      assert pieces[..|older|] == PrintPairs(older) && pieces[..|older| + 1] == pieces;
      OneMorePair(Section(PrintPairs(older)), Section(pieces), older, last);
    }
  }

  // Reading a pair whose key is new.
  lemma OneMorePair(before: map<string, string>, m: map<string, string>, older: seq<Pair>, last: Pair)
    requires forall p | p in older :: Get(before, p.key) == p.value && p.key != last.key
    requires forall k | k in before :: exists p :: p in older && p.key == k
    requires m == before[last.key := last.value] || (last.value == [] && m == before)
    ensures forall p | p in older + [last] :: Get(m, p.key) == p.value
    ensures forall k | k in m :: exists p :: p in older + [last] && p.key == k
  {
    assert last.key !in before;
    forall k | k in m
      ensures exists p :: p in older + [last] && p.key == k
    {
      if k == last.key {
        assert last in older + [last];
      } else {
        var p :| p in older && p.key == k;
        assert p in older + [last];
      }
    }
  }

  // The parser inverts the printer: from the text of any list of pairs every
  // key gives its value back, the empty value included, and no other key is
  // found.
  lemma ParserInvertsPrinter(ps: seq<Pair>, sep: char)
    requires ps != [] && DistinctKeys(ps) && forall p | p in ps :: Printable(p, sep)
    ensures var m := Section(Pieces(Join(PrintPairs(ps), sep), sep));
            && (forall p | p in ps :: Get(m, p.key) == p.value)
            && (forall k | k in m :: exists p :: p in ps && p.key == k)
  {
    var text := Join(PrintPairs(ps), sep);
    PrintedFree(ps, sep);
    PiecesJoin(text, sep);
    SplitIsUnique(Pieces(text, sep), PrintPairs(ps), sep);
    SectionOfPrinted(ps, sep);
  }

  // Reading a printed command through the object.
  method ReadBack(ps: seq<Pair>, sep: char) returns (conf: CONF)
    requires ps != [] && DistinctKeys(ps) && forall p | p in ps :: Printable(p, sep)
    ensures fresh(conf)
    ensures forall p | p in ps :: conf.CONF_get_string(p.key) == p.value
    ensures forall k | k !in (set p | p in ps :: p.key) :: conf.CONF_get_string(k) == ""
  {
    conf := new CONF();
    var ok := conf.CONF_prase_line(Join(PrintPairs(ps), sep), sep);
    ParserInvertsPrinter(ps, sep);
  }
}
