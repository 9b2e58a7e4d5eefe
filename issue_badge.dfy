/** The badge shown for a status, priority or category: a label made from the
    value's literal (`in-progress` becomes `In Progress`) and a colour class
    chosen per value. */
module IssueBadge {
  import opened Types
  import opened JsString

  datatype BadgeKind = StatusBadge | PriorityBadge | CategoryBadge

  function StatusClasses(status: IssueStatus): string {
    match status
    case Open => "bg-blue-100 text-blue-800 dark:bg-blue-900 dark:text-blue-300"
    case InProgress => "bg-yellow-100 text-yellow-800 dark:bg-yellow-900 dark:text-yellow-300"
    case Resolved => "bg-green-100 text-green-800 dark:bg-green-900 dark:text-green-300"
  }

  function PriorityClasses(priority: IssuePriority): string {
    match priority
    case Low => "bg-gray-100 text-gray-800 dark:bg-gray-700 dark:text-gray-300"
    case Medium => "bg-orange-100 text-orange-800 dark:bg-orange-900 dark:text-orange-300"
    case High => "bg-red-100 text-red-800 dark:bg-red-900 dark:text-red-300"
  }

  function CategoryClasses(category: IssueCategory): string {
    match category
    case Facilities => "bg-purple-100 text-purple-800 dark:bg-purple-900 dark:text-purple-300"
    case Academics => "bg-indigo-100 text-indigo-800 dark:bg-indigo-900 dark:text-indigo-300"
    case Administration => "bg-teal-100 text-teal-800 dark:bg-teal-900 dark:text-teal-300"
    case Others => "bg-gray-100 text-gray-800 dark:bg-gray-700 dark:text-gray-300"
  }

  /** `getBadgeClasses`: the value arrives as a string literal; a literal that
      no case of the chosen switch names gives `undefined` (None). */
  function BadgeClasses(kind: BadgeKind, value: string): (r: Option<string>)
    ensures r.Some? <==> match kind
                         case StatusBadge => ParseStatus(value).Some?
                         case PriorityBadge => ParsePriority(value).Some?
                         case CategoryBadge => ParseCategory(value).Some?
    ensures forall s :: kind == StatusBadge && value == StatusName(s) ==> r == Some(StatusClasses(s))
    ensures forall p :: kind == PriorityBadge && value == PriorityName(p) ==> r == Some(PriorityClasses(p))
    ensures forall c :: kind == CategoryBadge && value == CategoryName(c) ==> r == Some(CategoryClasses(c))
  {
    match kind
    case StatusBadge =>
      (match ParseStatus(value) case Some(s) => Some(StatusClasses(s)) case None => None)
    case PriorityBadge =>
      (match ParsePriority(value) case Some(p) => Some(PriorityClasses(p)) case None => None)
    case CategoryBadge =>
      (match ParseCategory(value) case Some(c) => Some(CategoryClasses(c)) case None => None)
  }

  /** The three statuses get three different colours. */
  lemma StatusClassesDistinct(a: IssueStatus, b: IssueStatus)
    ensures StatusClasses(a) == StatusClasses(b) <==> a == b
  {
    var o, p, r := StatusClasses(Open), StatusClasses(InProgress), StatusClasses(Resolved);
    assert |o| != |p| && |p| != |r| && |o| != |r|;
  }

  /** Category `others` is drawn exactly like priority `low`. */
  lemma OthersLooksLikeLow()
    ensures CategoryClasses(Others) == PriorityClasses(Low)
    ensures forall c :: c != Others ==> CategoryClasses(c) != PriorityClasses(Low)
  {
  }

  /** `word.charAt(0).toUpperCase() + word.slice(1)`. */
  function Capitalize(word: string): (r: string)
    ensures |r| == |word|
  {
    if word == [] then [] else [UpperChar(word[0])] + word[1..]
  }

  function CapitalizeAll(words: seq<string>): (r: seq<string>)
    ensures |r| == |words|
  {
    if words == [] then [] else [Capitalize(words[0])] + CapitalizeAll(words[1..])
  }

  lemma CapitalizeAllCons(w: string, words: seq<string>)
    ensures CapitalizeAll([w] + words) == [Capitalize(w)] + CapitalizeAll(words)
  {
    assert ([w] + words)[1..] == words;
  }

  /** `formatValue`: split at `-`, capitalize each piece, join with a space. */
  function FormatValue(value: string): string {
    Join(CapitalizeAll(Split(value, '-')), " ")
  }

  /** What `formatValue` does to each position, stated without splitting:
      a `-` becomes a space, and the first letter of each piece is upper-cased. */
  function FormattedChar(s: string, i: nat): char
    requires i < |s|
  {
    if s[i] == '-' then ' '
    else if i == 0 || s[i - 1] == '-' then UpperChar(s[i])
    else s[i]
  }

  /** Taking off the first piece: the label of `s` is the first piece
      capitalized, a space, and the label of the rest. */
  lemma FormatValueUnfold(s: string)
    requires '-' in s
    ensures var p := IndexOf(s, '-');
            FormatValue(s) == Capitalize(s[..p]) + " " + FormatValue(s[p + 1..])
  {
    var p := IndexOf(s, '-');
    var rest := Split(s[p + 1..], '-');
    SplitCons(s, '-');
    CapitalizeAllCons(s[..p], rest);
    JoinCons(Capitalize(s[..p]), CapitalizeAll(rest), " ");
  }

  /** Within a piece, capitalizing is what FormattedChar does. */
  lemma CapitalizeIsFormatted(w: string, i: nat)
    requires '-' !in w && i < |w|
    ensures Capitalize(w)[i] == FormattedChar(w, i)
  {
    assert w[i] in w;
    if i > 0 {
      assert w[i - 1] in w;
    }
  }

  /** FormattedChar looks at one neighbour only, so it can be taken on the
      piece before the first `-` or on what follows it. */
  lemma FormattedCharSplit(s: string, p: nat, i: nat)
    requires p < |s| && s[p] == '-' && '-' !in s[..p] && i < |s|
    ensures i < p ==> FormattedChar(s, i) == FormattedChar(s[..p], i)
    ensures i > p ==> FormattedChar(s, i) == FormattedChar(s[p + 1..], i - p - 1)
  {
    if i < p {
      assert s[..p][i] == s[i];
      if i > 0 {
        assert s[..p][i - 1] == s[i - 1];
      }
    } else if i > p {
      assert s[p + 1..][i - p - 1] == s[i];
      if i - p - 1 > 0 {
        assert s[p + 1..][i - p - 2] == s[i - 1];
      }
    }
  }

  /** The label has the length of the value and agrees with FormattedChar at
      every position. */
  lemma {:induction false} FormatValuePointwise(s: string)
    ensures |FormatValue(s)| == |s|
    ensures forall i :: 0 <= i < |s| ==> FormatValue(s)[i] == FormattedChar(s, i)
    decreases |s|
  {
    if '-' !in s {
      FormatSingleWord(s);
      forall i | 0 <= i < |s| ensures FormatValue(s)[i] == FormattedChar(s, i) {
        CapitalizeIsFormatted(s, i);
      }
    } else {
      var p := IndexOf(s, '-');
      FormatValuePointwise(s[p + 1..]);
      FormatPiecesPointwise(s, p, s[p + 1..]);
    }
  }

  /** One step of FormatValuePointwise: if the label of what follows the first
      `-` agrees with FormattedChar, so does the label of the whole value. */
  lemma FormatPiecesPointwise(s: string, p: nat, rest: string)
    requires '-' in s && p == IndexOf(s, '-') && rest == s[p + 1..]
    requires |FormatValue(rest)| == |rest|
    requires forall i :: 0 <= i < |rest| ==> FormatValue(rest)[i] == FormattedChar(rest, i)
    ensures |FormatValue(s)| == |s|
    ensures forall i :: 0 <= i < |s| ==> FormatValue(s)[i] == FormattedChar(s, i)
  {
    var head, tail := Capitalize(s[..p]), FormatValue(rest);
    FormatValueUnfold(s);
    assert FormatValue(s) == head + " " + tail;
    forall i | 0 <= i < |s| ensures FormatValue(s)[i] == FormattedChar(s, i) {
      FormattedCharSplit(s, p, i);
      if i < p {
        assert FormatValue(s)[i] == head[i];
        CapitalizeIsFormatted(s[..p], i);
      } else if i > p {
        assert FormatValue(s)[i] == tail[i - p - 1];
      }
    }
  }

  /** A label never contains `-`. */
  lemma FormatValueHasNoHyphen(s: string)
    ensures '-' !in FormatValue(s)
  {
    FormatValuePointwise(s);
    forall i | 0 <= i < |s| ensures FormatValue(s)[i] != '-' {
    }
  }

  lemma {:induction false} CountAgrees(a: string, x: char, b: string, y: char)
    requires |a| == |b|
    requires forall i :: 0 <= i < |a| ==> (a[i] == x <==> b[i] == y)
    ensures Count(a, x) == Count(b, y)
  {
    if a != [] {
      CountAgrees(a[1..], x, b[1..], y);
    }
  }

  /** For a value without spaces, the label has as many words as the value
      has `-`-separated pieces. */
  lemma FormatValueKeepsWordCount(s: string)
    requires ' ' !in s
    ensures |Split(FormatValue(s), ' ')| == |Split(s, '-')|
  {
    FormatValuePointwise(s);
    CountAgrees(FormatValue(s), ' ', s, '-');
  }

  /** A two-piece value `a-b` is labelled `A B`. */
  lemma FormatTwoPieces(a: string, b: string)
    requires '-' !in a && '-' !in b
    ensures FormatValue(a + "-" + b) == Capitalize(a) + " " + Capitalize(b)
  {
    var s := a + "-" + b;
    assert s[..|a|] == a && s[|a| + 1..] == b && s[|a|] == '-';
    assert IndexOf(s, '-') == |a|;
    FormatValueUnfold(s);
    FormatSingleWord(b);
  }

  /** The status `in-progress` is shown as `In Progress`. */
  lemma FormatInProgress()
    ensures FormatValue(StatusName(InProgress)) == "In Progress"
  {
    assert StatusName(InProgress) == "in" + "-" + "progress";
    FormatTwoPieces("in", "progress");
    CapitalizeWords();
  }

  lemma FormatSingleWord(w: string)
    requires '-' !in w
    ensures FormatValue(w) == Capitalize(w)
  {
    assert Split(w, '-') == [w];
    assert CapitalizeAll([w]) == [Capitalize(w)];
  }

  lemma CapitalizeWords()
    ensures Capitalize("in") + " " + Capitalize("progress") == "In Progress"
  {
    assert UpperChar('i') == 'I';
    assert UpperChar('p') == 'P';
  }
}
