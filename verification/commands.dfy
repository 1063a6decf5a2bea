/**
 * Control tags in the assistant's reply. Ten tags are looked for in a
 * fixed order; for each, the first match is removed from the text, the
 * remainder is trimmed, and a command is recorded (except for SLOWTYPE,
 * which is only stripped). A reply without tags comes back untouched.
 *
 * The regular expressions are modelled by what they match: `(.*?)` is the
 * shortest run up to the first `]` that crosses no line terminator, `(\d+)`
 * is a run of ASCII digits closed by `]`, and a match is the leftmost one.
 */
module Commands {
  import opened Ledger

  datatype Command =
    | Redirect(url: string)
    | Hold(seconds: nat)
    | Disconnect
    | Popup(message: string)
    | Shake
    | Glitch
    | Confetti
    | Ticket(number: string)
    | Volume(level: string)

  datatype Tag = RedirectTag | HoldTag | DisconnectTag | PopupTag | ShakeTag
               | GlitchTag | ConfettiTag | TicketTag | SlowtypeTag | VolumeTag

  /** The order in which the tags are looked for. */
  const Order: seq<Tag> := [RedirectTag, HoldTag, DisconnectTag, PopupTag, ShakeTag,
                            GlitchTag, ConfettiTag, TicketTag, SlowtypeTag, VolumeTag]

  /** A tag's place in `Order`. */
  function Rank(t: Tag): (k: nat)
    ensures k < |Order| && Order[k] == t
  {
    match t
    case RedirectTag => 0
    case HoldTag => 1
    case DisconnectTag => 2
    case PopupTag => 3
    case ShakeTag => 4
    case GlitchTag => 5
    case ConfettiTag => 6
    case TicketTag => 7
    case SlowtypeTag => 8
    case VolumeTag => 9
  }

  /** The tag a command comes from. */
  function TagOf(c: Command): Tag {
    match c
    case Redirect(_) => RedirectTag
    case Hold(_) => HoldTag
    case Disconnect => DisconnectTag
    case Popup(_) => PopupTag
    case Shake => ShakeTag
    case Glitch => GlitchTag
    case Confetti => ConfettiTag
    case Ticket(_) => TicketTag
    case Volume(_) => VolumeTag
  }

  /** How a tag is matched: a fixed string, a lazy capture, or a digit capture. */
  datatype Shape = Literal | Lazy | Digits

  function ShapeOf(t: Tag): Shape {
    match t
    case RedirectTag => Lazy
    case PopupTag => Lazy
    case VolumeTag => Lazy
    case HoldTag => Digits
    case TicketTag => Digits
    case _ => Literal
  }

  /** The fixed text a match starts with: the whole tag for a literal one. */
  function Opening(t: Tag): (w: string)
    ensures |w| > 0 && w[0] == '['
  {
    match t
    case RedirectTag => "[REDIRECT:"
    case HoldTag => "[HOLD:"
    case DisconnectTag => "[DISCONNECT]"
    case PopupTag => "[POPUP:"
    case ShakeTag => "[SHAKE]"
    case GlitchTag => "[GLITCH]"
    case ConfettiTag => "[CONFETTI]"
    case TicketTag => "[TICKET:"
    case SlowtypeTag => "[SLOWTYPE]"
    case VolumeTag => "[VOLUME:"
  }

  // ---------------------------------------------------------------------
  // Strings

  /** Whether `pat` occurs in `s` at position `i`. */
  predicate At(s: string, pat: string, i: nat) {
    i + |pat| <= |s| && s[i..i + |pat|] == pat
  }

  /** The first occurrence of `pat` in `s` at or after `i`. */
  function IndexFrom(s: string, pat: string, i: nat): (r: Option<nat>)
    ensures r.Some? ==> i <= r.value && At(s, pat, r.value)
    ensures r.Some? ==> forall j :: i <= j < r.value ==> !At(s, pat, j)
    ensures r.None? ==> forall j :: i <= j ==> !At(s, pat, j)
    decreases |s| - i
  {
    if i + |pat| > |s| then None
    else if At(s, pat, i) then Some(i)
    else IndexFrom(s, pat, i + 1)
  }

  /** `s.replace(pat, '')` for a string pattern: the first occurrence, if any, is cut out. */
  function ReplaceFirst(s: string, pat: string): (r: string)
    ensures IndexFrom(s, pat, 0).None? ==> r == s
    ensures IndexFrom(s, pat, 0).Some? ==>
      var i := IndexFrom(s, pat, 0).value;
      r == s[..i] + s[i + |pat|..]
  {
    match IndexFrom(s, pat, 0)
    case None => s
    case Some(i) => s[..i] + s[i + |pat|..]
  }

  /** The characters `trim` removes: white space and line terminators. */
  predicate IsSpace(c: char) {
    c in {'\t', '\n', '\U{000B}', '\U{000C}', '\r', ' ', '\U{00A0}', '\U{1680}',
          '\U{2000}', '\U{2001}', '\U{2002}', '\U{2003}', '\U{2004}', '\U{2005}',
          '\U{2006}', '\U{2007}', '\U{2008}', '\U{2009}', '\U{200A}',
          '\U{2028}', '\U{2029}', '\U{202F}', '\U{205F}', '\U{3000}', '\U{FEFF}'}
  }

  function TrimStart(s: string): (t: string)
    ensures |t| <= |s| && t == s[|s| - |t|..]
    ensures forall k :: 0 <= k < |s| - |t| ==> IsSpace(s[k])
    ensures t != [] ==> !IsSpace(t[0])
  {
    if s != [] && IsSpace(s[0]) then TrimStart(s[1..]) else s
  }

  function TrimEnd(s: string): (t: string)
    ensures |t| <= |s| && t == s[..|t|]
    ensures forall k :: |t| <= k < |s| ==> IsSpace(s[k])
    ensures t != [] ==> !IsSpace(t[|t| - 1])
  {
    if s != [] && IsSpace(s[|s| - 1]) then TrimEnd(s[..|s| - 1]) else s
  }

  /** `trim`: the longest middle part of `s` that neither starts nor ends with white space. */
  function Trim(s: string): (t: string)
    ensures t != [] ==> !IsSpace(t[0]) && !IsSpace(t[|t| - 1])
    ensures s == [] || (!IsSpace(s[0]) && !IsSpace(s[|s| - 1])) ==> t == s
  {
    TrimEnd(TrimStart(s))
  }

  /** Trimming twice is trimming once. */
  lemma TrimIdempotent(s: string)
    ensures Trim(Trim(s)) == Trim(s)
  {
  }

  // ---------------------------------------------------------------------
  // Matching

  predicate IsLineTerminator(c: char) {
    c == '\n' || c == '\r' || c == '\U{2028}' || c == '\U{2029}'
  }

  /** No `]` and no line terminator in `s[k..e]`: what `.*?` may pass over. */
  predicate Clean(s: string, k: nat, e: nat)
    requires k <= e <= |s|
  {
    forall m :: k <= m < e ==> s[m] != ']' && !IsLineTerminator(s[m])
  }

  /** The `]` that ends a lazy capture starting at `k`, if no line terminator comes first. */
  function CloseFrom(s: string, k: nat): (r: Option<nat>)
    requires k <= |s|
    ensures r.Some? ==> k <= r.value < |s| && s[r.value] == ']' && Clean(s, k, r.value)
    ensures r.None? ==> forall e :: k <= e < |s| && s[e] == ']' ==> !Clean(s, k, e)
    decreases |s| - k
  {
    if k == |s| then None
    else if s[k] == ']' then Some(k)
    else if IsLineTerminator(s[k]) then None
    else CloseFrom(s, k + 1)
  }

  predicate IsDigit(c: char) {
    '0' <= c <= '9'
  }

  /** The end of the run of digits starting at `k`. */
  function DigitEnd(s: string, k: nat): (e: nat)
    requires k <= |s|
    ensures k <= e <= |s|
    ensures forall m :: k <= m < e ==> IsDigit(s[m])
    ensures e < |s| ==> !IsDigit(s[e])
    decreases |s| - k
  {
    if k < |s| && IsDigit(s[k]) then DigitEnd(s, k + 1) else k
  }

  /** A match: `s[start..end]` is the whole tag and `capture` its group (empty for a literal tag). */
  datatype Match = Match(start: nat, end: nat, capture: string)

  /** The match of a tag's pattern that starts exactly at `i`, if any. */
  function MatchAt(s: string, t: Tag, i: nat): (r: Option<Match>)
    ensures r.Some? ==> r.value.start == i && i < r.value.end <= |s| && At(s, Opening(t), i)
    ensures r.Some? && ShapeOf(t) == Literal ==> r.value == Match(i, i + |Opening(t)|, "")
    ensures r.Some? && ShapeOf(t) != Literal ==>
      var k := i + |Opening(t)|;
      && k < r.value.end && s[r.value.end - 1] == ']'
      && r.value.capture == s[k..r.value.end - 1]
      && (ShapeOf(t) == Lazy ==> Clean(s, k, r.value.end - 1))
      && (ShapeOf(t) == Digits ==> r.value.capture != [] && forall m :: 0 <= m < |r.value.capture| ==> IsDigit(r.value.capture[m]))
  {
    MatchWith(s, Opening(t), ShapeOf(t), i)
  }

  /** The match at `i` of the pattern that opens with `w` and continues as `shape` says. */
  function MatchWith(s: string, w: string, shape: Shape, i: nat): (r: Option<Match>)
    requires w != []
    ensures r.Some? ==> r.value.start == i && i < r.value.end <= |s| && At(s, w, i)
    ensures r.Some? && shape == Literal ==> r.value == Match(i, i + |w|, "")
    ensures r.Some? && shape != Literal ==>
      var k := i + |w|;
      && k < r.value.end && s[r.value.end - 1] == ']'
      && r.value.capture == s[k..r.value.end - 1]
      && (shape == Lazy ==> Clean(s, k, r.value.end - 1))
      && (shape == Digits ==> r.value.capture != [] && forall m :: 0 <= m < |r.value.capture| ==> IsDigit(r.value.capture[m]))
  {
    if !At(s, w, i) then None
    else
      var k := i + |w|;
      match shape
      case Literal => Some(Match(i, k, ""))
      case Lazy =>
        (match CloseFrom(s, k)
         case None => None
         case Some(e) => Some(Match(i, e + 1, s[k..e])))
      case Digits =>
        var e := DigitEnd(s, k);
        if k < e < |s| && s[e] == ']' then Some(Match(i, e + 1, s[k..e])) else None
  }

  /** The leftmost match at or after `i`. */
  function FindFrom(s: string, t: Tag, i: nat): (r: Option<Match>)
    ensures r.Some? ==> i <= r.value.start && MatchAt(s, t, r.value.start) == r
    decreases |s| - i
  {
    if i >= |s| then None
    else if MatchAt(s, t, i).Some? then MatchAt(s, t, i)
    else FindFrom(s, t, i + 1)
  }

  /** The search misses nothing: no match starts between `i` and what it finds, or anywhere after `i` when it finds nothing. */
  lemma {:induction false} FindFromFirst(s: string, t: Tag, i: nat)
    ensures FindFrom(s, t, i).Some? ==> forall j :: i <= j < FindFrom(s, t, i).value.start ==> MatchAt(s, t, j).None?
    ensures FindFrom(s, t, i).None? ==> forall j :: i <= j ==> MatchAt(s, t, j).None?
    decreases |s| - i
  {
    if i >= |s| {
      forall j | i <= j ensures MatchAt(s, t, j).None? {
        NoMatchPastEnd(s, t, j);
      }
    } else if MatchAt(s, t, i).None? {
      var r := FindFrom(s, t, i + 1);
      assert FindFrom(s, t, i) == r;
      FindFromFirst(s, t, i + 1);
      if r.Some? {
        assert forall j :: i + 1 <= j < r.value.start ==> MatchAt(s, t, j).None?;
      } else {
        assert forall j :: i + 1 <= j ==> MatchAt(s, t, j).None?;
      }
    } else {
      assert FindFrom(s, t, i) == MatchAt(s, t, i);
    }
  }

  lemma NoMatchPastEnd(s: string, t: Tag, j: nat)
    requires j >= |s|
    ensures MatchAt(s, t, j).None?
  {
  }


  /** An occurrence of `s[a..b]` at `j` repeats its characters there. */
  lemma Copy(s: string, a: nat, b: nat, j: nat, x: nat)
    requires a <= b <= |s| && At(s, s[a..b], j) && x < b - a
    ensures s[j + x] == s[a + x]
  {
    assert s[j..j + (b - a)][x] == s[a..b][x];
  }

  /** Where the text of a match occurs, so does the opening it starts with. */
  lemma OpeningCopied(s: string, w: string, shape: Shape, m: Match, j: nat)
    requires w != []
    requires MatchWith(s, w, shape, m.start) == Some(m)
    requires At(s, s[m.start..m.end], j)
    ensures At(s, w, j)
  {
    forall x | 0 <= x < |w| ensures s[j..j + |w|][x] == w[x] {
      Copy(s, m.start, m.end, j, x);
      assert s[j + x] == s[m.start + x] == s[m.start..m.start + |w|][x];
    }
  }

  /** Where the text of a lazy match occurs, the pattern matches too: its capture is as clean. */
  lemma LazyOccurrence(s: string, w: string, m: Match, j: nat)
    requires w != []
    requires MatchWith(s, w, Lazy, m.start) == Some(m)
    requires At(s, s[m.start..m.end], j)
    ensures MatchWith(s, w, Lazy, j).Some?
  {
    var c := m.capture;
    var kj := j + |w|;
    assert At(s, w, j) by {
      OpeningCopied(s, w, Lazy, m, j);
    }
    assert CloseFrom(s, kj) == Some(kj + |c|) by {
      var k := m.start + |w|;
      CaptureCopied(s, m.start, m.end, j, w, c);
      forall x | 0 <= x < |c| ensures c[x] != ']' && !IsLineTerminator(c[x]) {
        assert c[x] == s[k + x];
      }
      LazyCloses(s, kj, c);
    }
    LazyMatchAt(s, w, j, kj + |c|);
  }


  /** A lazy pattern matches where its opening is followed by a clean capture and `]`. */
  lemma LazyMatchAt(s: string, w: string, i: nat, e: nat)
    requires w != [] && At(s, w, i) && CloseFrom(s, i + |w|) == Some(e)
    ensures MatchWith(s, w, Lazy, i) == Some(Match(i, e + 1, s[i + |w|..e]))
  {
  }

  /** A digits pattern matches where its opening is followed by a run of digits and `]`. */
  lemma DigitsMatchAt(s: string, w: string, i: nat, e: nat)
    requires w != [] && At(s, w, i)
    requires DigitEnd(s, i + |w|) == e && i + |w| < e < |s| && s[e] == ']'
    ensures MatchWith(s, w, Digits, i) == Some(Match(i, e + 1, s[i + |w|..e]))
  {
  }

  /** Where the text of a digit match occurs, the pattern matches too: the same digits, closed the same way. */
  lemma DigitsOccurrence(s: string, w: string, m: Match, j: nat)
    requires w != []
    requires MatchWith(s, w, Digits, m.start) == Some(m)
    requires At(s, s[m.start..m.end], j)
    ensures MatchWith(s, w, Digits, j).Some?
  {
    var c := m.capture;
    var kj := j + |w|;
    assert At(s, w, j) by {
      OpeningCopied(s, w, Digits, m, j);
    }
    assert kj + |c| < |s| && s[kj..kj + |c|] == c && s[kj + |c|] == ']' by {
      CaptureCopied(s, m.start, m.end, j, w, c);
    }
    DigitsAt(s, w, j, c);
  }

  /** The opening, a non-empty run of digits and `]` make a digits match. */
  lemma DigitsAt(s: string, w: string, j: nat, c: string)
    requires w != [] && At(s, w, j) && c != []
    requires j + |w| + |c| < |s| && s[j + |w|..j + |w| + |c|] == c && s[j + |w| + |c|] == ']'
    requires forall m :: 0 <= m < |c| ==> IsDigit(c[m])
    ensures MatchWith(s, w, Digits, j).Some?
  {
    DigitsClose(s, j + |w|, c);
    DigitsMatchAt(s, w, j, j + |w| + |c|);
  }

  /**
   * Where the text of a match with a capture occurs, the capture and its
   * closing bracket occur at the same offsets.
   */
  lemma CaptureCopied(s: string, a: nat, b: nat, j: nat, o: string, c: string)
    requires a <= b <= |s| && At(s, s[a..b], j)
    requires a + |o| < b && s[a + |o|..b - 1] == c && s[b - 1] == ']'
    ensures j + |o| + |c| < |s| && s[j + |o|..j + |o| + |c|] == c && s[j + |o| + |c|] == ']'
  {
    SliceCopied(s, a, b, j, |o|, |c|);
    Copy(s, a, b, j, |o| + |c|);
  }

  /** An occurrence of `s[a..b]` at `j` repeats each of its slices at the same offset. */
  lemma SliceCopied(s: string, a: nat, b: nat, j: nat, k: nat, n: nat)
    requires a <= b <= |s| && At(s, s[a..b], j) && k + n <= b - a
    ensures s[j + k..j + k + n] == s[a + k..a + k + n]
  {
    var p, q := s[j + k..j + k + n], s[a + k..a + k + n];
    forall x | 0 <= x < n ensures p[x] == q[x] {
      Copy(s, a, b, j, k + x);
    }
  }



  /** Wherever the text of a match occurs, the pattern matches there too. */
  lemma OccurrenceMatches(s: string, t: Tag, m: Match, j: nat)
    requires MatchAt(s, t, m.start) == Some(m)
    requires At(s, s[m.start..m.end], j)
    ensures MatchAt(s, t, j).Some?
  {
    var w := Opening(t);
    match ShapeOf(t)
    case Literal => OpeningCopied(s, w, Literal, m, j);
    case Lazy => LazyOccurrence(s, w, m, j);
    case Digits => DigitsOccurrence(s, w, m, j);
  }

  /**
   * The text of a match occurs nowhere before the match: every earlier
   * occurrence would itself match, against leftmost-ness. So the string
   * replace in the source removes exactly the match.
   */
  lemma MatchIsFirstOccurrence(s: string, t: Tag)
    requires FindFrom(s, t, 0).Some?
    ensures var m := FindFrom(s, t, 0).value;
            IndexFrom(s, s[m.start..m.end], 0) == Some(m.start)
  {
    var m := FindFrom(s, t, 0).value;
    var w := s[m.start..m.end];
    FindFromFirst(s, t, 0);
    assert At(s, w, m.start);
    forall j | 0 <= j < m.start
      ensures !At(s, w, j)
    {
      if At(s, w, j) {
        OccurrenceMatches(s, t, m, j);
      }
    }
    FirstOccurrence(s, w, m.start);
  }

  /** Replacing the first occurrence of a match's text cuts out the match itself. */
  lemma CutMatch(s: string, t: Tag, m: Match)
    requires FindFrom(s, t, 0) == Some(m)
    ensures ReplaceFirst(s, s[m.start..m.end]) == s[..m.start] + s[m.end..]
  {
    assert IndexFrom(s, s[m.start..m.end], 0) == Some(m.start) by {
      MatchIsFirstOccurrence(s, t);
    }
    CutAt(s, m.start, m.end);
  }

  /** Cutting out the first occurrence of `s[a..b]`, found at `a`. */
  lemma CutAt(s: string, a: nat, b: nat)
    requires a <= b <= |s| && IndexFrom(s, s[a..b], 0) == Some(a)
    ensures ReplaceFirst(s, s[a..b]) == s[..a] + s[b..]
  {
  }

  /** An occurrence with none before it is the one `IndexFrom` finds. */
  lemma FirstOccurrence(s: string, w: string, i: nat)
    requires At(s, w, i)
    requires forall j :: 0 <= j < i ==> !At(s, w, j)
    ensures IndexFrom(s, w, 0) == Some(i)
  {
  }

  // ---------------------------------------------------------------------
  // Parsing

  /** A hold: the decimal value of a run of digits, capped at two minutes. */
  function HoldSeconds(d: string): (sec: nat)
    ensures sec <= 120
    ensures sec == if Decimal(d) < 120 then Decimal(d) else 120
  {
    if Decimal(d) < 120 then Decimal(d) else 120
  }

  /** The decimal value of a string of ASCII digits. */
  function Decimal(d: string): nat {
    if d == [] then 0
    else Decimal(d[..|d| - 1]) * 10 + (if IsDigit(d[|d| - 1]) then d[|d| - 1] as int - '0' as int else 0)
  }

  /** The command a tag's match records; SLOWTYPE records none. */
  function CommandFor(t: Tag, capture: string): (cs: seq<Command>)
    ensures |cs| <= 1
    ensures cs == [] <==> t == SlowtypeTag
    ensures forall c :: c in cs ==> TagOf(c) == t
    ensures HoldsCapped(cs)
  {
    match t
    case RedirectTag => [Redirect(capture)]
    case HoldTag => [Hold(HoldSeconds(capture))]
    case DisconnectTag => [Disconnect]
    case PopupTag => [Popup(capture)]
    case ShakeTag => [Shake]
    case GlitchTag => [Glitch]
    case ConfettiTag => [Confetti]
    case TicketTag => [Ticket(capture)]
    case SlowtypeTag => []
    case VolumeTag => [Volume(capture)]
  }

  datatype Parsed = Parsed(cleanText: string, commands: seq<Command>)

  /**
   * One tag's step: without a match nothing changes (the text is not even
   * trimmed); with one, the match is cut out of the text at its leftmost
   * position, the rest is trimmed, and the tag's command is appended.
   */
  function Pass(p: Parsed, t: Tag): (r: Parsed)
    ensures FindFrom(p.cleanText, t, 0).None? ==> r == p
    ensures FindFrom(p.cleanText, t, 0).Some? ==>
      var m := FindFrom(p.cleanText, t, 0).value;
      && r.cleanText == Trim(p.cleanText[..m.start] + p.cleanText[m.end..])
      && r.commands == p.commands + CommandFor(t, m.capture)
  {
    match FindFrom(p.cleanText, t, 0)
    case None => p
    case Some(m) =>
      CutMatch(p.cleanText, t, m);
      Parsed(Trim(ReplaceFirst(p.cleanText, p.cleanText[m.start..m.end])), p.commands + CommandFor(t, m.capture))
  }

  /** The steps for `tags`, in order. */
  function Run(p: Parsed, tags: seq<Tag>): Parsed
    decreases |tags|
  {
    if tags == [] then p else Run(Pass(p, tags[0]), tags[1..])
  }

  /**
   * Running the steps keeps the commands found so far as a prefix, and each
   * tag adds at most one command, of one of the tags run.
   */
  lemma {:induction false} RunExtends(p: Parsed, tags: seq<Tag>)
    ensures var r := Run(p, tags);
      && |p.commands| <= |r.commands| <= |p.commands| + |tags|
      && r.commands[..|p.commands|] == p.commands
      && forall i :: |p.commands| <= i < |r.commands| ==> TagOf(r.commands[i]) in tags
    decreases |tags|
  {
    if tags != [] {
      var q := Pass(p, tags[0]);
      PassAddsOne(p, tags[0]);
      RunExtends(q, tags[1..]);
      var r := Run(q, tags[1..]);
      assert r.commands[..|p.commands|] == r.commands[..|q.commands|][..|p.commands|];
      forall i | |p.commands| <= i < |r.commands|
        ensures TagOf(r.commands[i]) in tags
      {
        if i < |q.commands| {
          assert r.commands[i] == r.commands[..|q.commands|][i];
        } else {
          assert TagOf(r.commands[i]) in tags[1..];
        }
      }
    }
  }

  /** One step keeps the commands so far and adds at most one, of its own tag. */
  lemma PassAddsOne(p: Parsed, t: Tag)
    ensures var q := Pass(p, t);
      && |p.commands| <= |q.commands| <= |p.commands| + 1
      && q.commands[..|p.commands|] == p.commands
      && forall i :: |p.commands| <= i < |q.commands| ==> TagOf(q.commands[i]) == t
  {
    match FindFrom(p.cleanText, t, 0)
    case None =>
    case Some(m) =>
      var cs := CommandFor(t, m.capture);
      assert Pass(p, t).commands == p.commands + cs;
      assert forall i :: 0 <= i < |cs| ==> cs[i] in cs;
  }

  /** The commands' tags come strictly in `Order`. */
  predicate InOrder(cs: seq<Command>) {
    forall i, j :: 0 <= i < j < |cs| ==> Rank(TagOf(cs[i])) < Rank(TagOf(cs[j]))
  }

  /** Every hold is at most two minutes. */
  predicate HoldsCapped(cs: seq<Command>) {
    forall i :: 0 <= i < |cs| && cs[i].Hold? ==> cs[i].seconds <= 120
  }

  /** `parseCommands`: every tag in `Order`, starting from the raw reply. */
  function ParseCommands(text: string): (r: Parsed)
    ensures InOrder(r.commands)
    ensures HoldsCapped(r.commands)
  {
    RunInOrder(Parsed(text, []), 0);
    Run(Parsed(text, []), Order)
  }

  /** Running the remaining tags from position `k` keeps the commands in order. */
  lemma {:induction false} RunInOrder(p: Parsed, k: nat)
    requires k <= |Order|
    requires InOrder(p.commands)
    requires forall i :: 0 <= i < |p.commands| ==> Rank(TagOf(p.commands[i])) < k
    requires HoldsCapped(p.commands)
    ensures InOrder(Run(p, Order[k..]).commands)
    ensures HoldsCapped(Run(p, Order[k..]).commands)
    decreases |Order| - k
  {
    if k < |Order| {
      var t := Order[k];
      assert Rank(t) == k;
      var found := FindFrom(p.cleanText, t, 0);
      if found.Some? {
        AppendInOrder(p.commands, CommandFor(t, found.value.capture), k);
      }
      assert Order[k..][1..] == Order[k + 1..];
      RunInOrder(Pass(p, t), k + 1);
    }
  }

  /** Appending at most one command of the tag ranked `k` after commands ranked below `k` keeps the order. */
  lemma AppendInOrder(cs: seq<Command>, ds: seq<Command>, k: nat)
    requires InOrder(cs) && HoldsCapped(cs) && HoldsCapped(ds)
    requires forall i :: 0 <= i < |cs| ==> Rank(TagOf(cs[i])) < k
    requires |ds| <= 1 && forall c :: c in ds ==> Rank(TagOf(c)) == k
    ensures InOrder(cs + ds) && HoldsCapped(cs + ds)
    ensures forall i :: 0 <= i < |cs + ds| ==> Rank(TagOf((cs + ds)[i])) < k + 1
  {
    if ds != [] {
      assert ds[0] in ds;
    }
  }


  /** Without a `[` the reply has no tag: it comes back unchanged, untrimmed, with no command. */
  lemma NoTagUnchanged(text: string)
    requires '[' !in text
    ensures ParseCommands(text) == Parsed(text, [])
  {
    RunUnchanged(Parsed(text, []), Order);
  }

  lemma {:induction false} RunUnchanged(p: Parsed, tags: seq<Tag>)
    requires '[' !in p.cleanText
    ensures Run(p, tags) == p
  {
    if tags != [] {
      RunUnchanged(p, tags[1..]);
    }
  }

  /** The text of a tag as written in a reply: the opening, then for a capturing tag the capture and `]`. */
  function TagText(t: Tag, capture: string): string {
    if ShapeOf(t) == Literal then Opening(t) else Opening(t) + capture + "]"
  }

  /** A capture the tag's pattern takes whole: empty for a literal tag, digits for a digit tag, and no `[`. */
  predicate FitsTag(t: Tag, capture: string) {
    && '[' !in capture
    && (ShapeOf(t) == Literal ==> capture == [])
    && (ShapeOf(t) == Lazy ==> forall k :: 0 <= k < |capture| ==> capture[k] != ']' && !IsLineTerminator(capture[k]))
    && (ShapeOf(t) == Digits ==> capture != [] && forall k :: 0 <= k < |capture| ==> IsDigit(capture[k]))
  }

  /** The two letters after a tag's `[`, which tell the tags apart. */
  function Initials(t: Tag): string {
    match t
    case RedirectTag => "RE"
    case HoldTag => "HO"
    case DisconnectTag => "DI"
    case PopupTag => "PO"
    case ShakeTag => "SH"
    case GlitchTag => "GL"
    case ConfettiTag => "CO"
    case TicketTag => "TI"
    case SlowtypeTag => "SL"
    case VolumeTag => "VO"
  }

  /** The tag with the given initials. */
  function FromInitials(w: string): Option<Tag> {
    if w == "RE" then Some(RedirectTag)
    else if w == "HO" then Some(HoldTag)
    else if w == "DI" then Some(DisconnectTag)
    else if w == "PO" then Some(PopupTag)
    else if w == "SH" then Some(ShakeTag)
    else if w == "GL" then Some(GlitchTag)
    else if w == "CO" then Some(ConfettiTag)
    else if w == "TI" then Some(TicketTag)
    else if w == "SL" then Some(SlowtypeTag)
    else if w == "VO" then Some(VolumeTag)
    else None
  }

  /** An opening is `[`, the tag's initials, and more characters, none of them `[`. */
  lemma OpeningInitials(t: Tag)
    ensures |Opening(t)| > 2 && |Initials(t)| == 2
    ensures Opening(t)[1] == Initials(t)[0] && Opening(t)[2] == Initials(t)[1]
    ensures forall k :: 1 <= k < |Opening(t)| ==> Opening(t)[k] != '['
    ensures FromInitials(Initials(t)) == Some(t)
  {
    match t
    case RedirectTag =>
    case HoldTag =>
    case DisconnectTag =>
    case PopupTag =>
    case ShakeTag =>
    case GlitchTag =>
    case ConfettiTag =>
    case TicketTag =>
    case SlowtypeTag =>
    case VolumeTag =>
  }

  /** Two different tags' openings differ in their second or third character. */
  lemma OpeningsDiffer(t: Tag, t': Tag)
    requires t != t'
    ensures |Opening(t)| > 2 && |Opening(t')| > 2
    ensures Opening(t)[1] != Opening(t')[1] || Opening(t)[2] != Opening(t')[2]
    ensures '[' !in Opening(t)[1..]
  {
    OpeningInitials(t);
    OpeningInitials(t');
    assert Initials(t) != Initials(t');
  }

  lemma RankOfOrder(i: nat)
    requires i < |Order|
    ensures Rank(Order[i]) == i
  {
  }

  /** Running `xs` then `ys` is running `xs + ys`. */
  lemma {:induction false} RunAppend(p: Parsed, xs: seq<Tag>, ys: seq<Tag>)
    ensures Run(p, xs + ys) == Run(Run(p, xs), ys)
    decreases |xs|
  {
    if xs != [] {
      assert (xs + ys)[1..] == xs[1..] + ys;
      RunAppend(Pass(p, xs[0]), xs[1..], ys);
    } else {
      assert xs + ys == ys;
    }
  }

  /** Tags that match nowhere leave the result alone. */
  lemma {:induction false} RunSkips(p: Parsed, tags: seq<Tag>)
    requires forall i :: 0 <= i < |tags| ==> FindFrom(p.cleanText, tags[i], 0).None?
    ensures Run(p, tags) == p
    decreases |tags|
  {
    if tags != [] {
      RunSkips(p, tags[1..]);
    }
  }

  /** The one `[` of a reply carrying a single tag is where the tag starts. */
  lemma OneBracket(a: string, t: Tag, capture: string, b: string)
    requires '[' !in a && '[' !in b && FitsTag(t, capture)
    ensures var s := a + TagText(t, capture) + b;
      forall j :: 0 <= j < |s| && j != |a| ==> s[j] != '['
  {
    var s := a + TagText(t, capture) + b;
    var w := TagText(t, capture);
    OpeningsDiffer(t, if t == ShakeTag then GlitchTag else ShakeTag);
    forall j | 0 <= j < |s| && j != |a| ensures s[j] != '[' {
      if j < |a| {
        assert s[j] == a[j];
      } else if j < |a| + |w| {
        assert s[j] == w[j - |a|];
        if j - |a| < |Opening(t)| {
          assert w[j - |a|] == Opening(t)[1..][j - |a| - 1];
        } else if j - |a| < |Opening(t)| + |capture| {
          assert w[j - |a|] == capture[j - |a| - |Opening(t)|];
        }
      } else {
        assert s[j] == b[j - |a| - |w|];
      }
    }
  }

  /** No tag's pattern matches where there is no `[`. */
  lemma NoBracketNoMatch(s: string, t: Tag, j: nat)
    requires j >= |s| || s[j] != '['
    ensures MatchAt(s, t, j).None?
  {
  }

  /** Where one tag's opening stands, another tag's does not. */
  lemma OpeningClash(s: string, t: Tag, t': Tag, i: nat)
    requires At(s, Opening(t), i) && t != t'
    ensures !At(s, Opening(t'), i)
  {
    OpeningsDiffer(t, t');
    var o, o' := Opening(t), Opening(t');
    assert s[i + 1] == s[i..i + |o|][1] == o[1];
    assert s[i + 2] == s[i..i + |o|][2] == o[2];
  }

  /** Where the only `[` starts one tag's opening, no other tag's pattern matches anywhere. */
  lemma OtherTagsMiss(s: string, i: nat, t: Tag, t': Tag)
    requires At(s, Opening(t), i) && t' != t
    requires forall j :: 0 <= j < |s| && j != i ==> s[j] != '['
    ensures FindFrom(s, t', 0).None?
  {
    forall j: nat ensures MatchAt(s, t', j).None? {
      if j == i {
        OpeningClash(s, t, t', i);
      } else {
        NoBracketNoMatch(s, t', j);
      }
    }
  }

  /** A capture followed by `]` closes a lazy match right after the capture. */
  lemma LazyCloses(s: string, k: nat, capture: string)
    requires k + |capture| < |s| && s[k..k + |capture|] == capture && s[k + |capture|] == ']'
    requires forall m :: 0 <= m < |capture| ==> capture[m] != ']' && !IsLineTerminator(capture[m])
    ensures CloseFrom(s, k) == Some(k + |capture|)
  {
    forall m | k <= m < k + |capture| ensures s[m] == capture[m - k] {
      assert s[m] == s[k..k + |capture|][m - k];
    }
  }

  /** A run of digits followed by `]` ends right after the run. */
  lemma DigitsClose(s: string, k: nat, capture: string)
    requires k + |capture| < |s| && s[k..k + |capture|] == capture && s[k + |capture|] == ']'
    requires forall m :: 0 <= m < |capture| ==> IsDigit(capture[m])
    ensures DigitEnd(s, k) == k + |capture|
  {
    forall m | k <= m < k + |capture| ensures s[m] == capture[m - k] {
      assert s[m] == s[k..k + |capture|][m - k];
    }
  }

  /** Where a tag's text stands, the tag's pattern matches it whole and takes the capture. */
  lemma OwnMatch(s: string, i: nat, e: nat, t: Tag, capture: string)
    requires FitsTag(t, capture)
    requires e == i + |TagText(t, capture)| <= |s| && s[i..e] == TagText(t, capture)
    ensures MatchAt(s, t, i) == Some(Match(i, e, capture))
  {
    TagTextParts(s, i, e, t, capture);
    if ShapeOf(t) != Literal {
      CaptureMatch(s, i, t, capture);
    }
  }

  /** Where a tag's text stands, its opening, capture and `]` stand in turn. */
  lemma TagTextParts(s: string, i: nat, e: nat, t: Tag, capture: string)
    requires e == i + |TagText(t, capture)| <= |s| && s[i..e] == TagText(t, capture)
    ensures At(s, Opening(t), i)
    ensures ShapeOf(t) != Literal ==>
      var k := i + |Opening(t)|;
      k + |capture| < |s| && s[k..k + |capture|] == capture && s[k + |capture|] == ']'
  {
    var w := TagText(t, capture);
    var o := Opening(t);
    forall m | 0 <= m < |w| ensures s[i + m] == w[m] {
      assert s[i..e][m] == s[i + m];
    }
    assert s[i..i + |o|] == o by {
      forall m | 0 <= m < |o| ensures s[i..i + |o|][m] == o[m] {
        assert w[m] == o[m];
      }
    }
    if ShapeOf(t) != Literal {
      var k := i + |o|;
      assert w == o + capture + "]";
      forall m | 0 <= m < |capture| ensures s[k..k + |capture|][m] == capture[m] {
        assert w[|o| + m] == capture[m];
      }
      assert w[|o| + |capture|] == ']';
    }
  }

  /** A capturing tag's opening followed by a fitting capture and `]` is matched whole. */
  lemma CaptureMatch(s: string, i: nat, t: Tag, capture: string)
    requires ShapeOf(t) != Literal && FitsTag(t, capture) && At(s, Opening(t), i)
    requires var k := i + |Opening(t)|;
      k + |capture| < |s| && s[k..k + |capture|] == capture && s[k + |capture|] == ']'
    ensures MatchAt(s, t, i) == Some(Match(i, i + |Opening(t)| + |capture| + 1, capture))
  {
    var k := i + |Opening(t)|;
    var e := k + |capture|;
    if ShapeOf(t) == Lazy {
      LazyCloses(s, k, capture);
      LazyMatchAt(s, Opening(t), i, e);
    } else {
      DigitsClose(s, k, capture);
      DigitsMatchAt(s, Opening(t), i, e);
    }
  }

  /** A tag's text with no `[` before it is the tag's leftmost match. */
  lemma FoundAt(s: string, i: nat, e: nat, t: Tag, capture: string)
    requires FitsTag(t, capture)
    requires e == i + |TagText(t, capture)| <= |s| && s[i..e] == TagText(t, capture)
    requires forall j :: 0 <= j < i ==> s[j] != '['
    ensures FindFrom(s, t, 0) == Some(Match(i, e, capture))
  {
    OwnMatch(s, i, e, t, capture);
    LeftmostFound(s, t, i);
  }

  /** The three parts of a concatenation, cut back out. */
  lemma Middle(a: string, w: string, b: string)
    ensures (a + w + b)[..|a|] == a
    ensures (a + w + b)[|a|..|a| + |w|] == w
    ensures (a + w + b)[|a| + |w|..] == b
  {
  }

  /** A match with no `[` before it is the leftmost one. */
  lemma LeftmostFound(s: string, t: Tag, i: nat)
    requires MatchAt(s, t, i).Some?
    requires forall j :: 0 <= j < i ==> s[j] != '['
    ensures FindFrom(s, t, 0) == MatchAt(s, t, i)
  {
    var r := FindFrom(s, t, 0);
    FindFromFirst(s, t, 0);
    assert r.Some?;
    assert r.value.start >= i by {
      if r.value.start < i {
        NoBracketNoMatch(s, t, r.value.start);
      }
    }
    assert r.value.start <= i;
  }


  /** Running all the tags is running those before `t`, then `t`, then those after it. */
  lemma RunAround(p: Parsed, t: Tag)
    ensures Run(p, Order) == Run(Pass(Run(p, Order[..Rank(t)]), t), Order[Rank(t) + 1..])
  {
    RunAroundAt(p, Order, Rank(t));
  }

  /** Running a list of tags is running those before position `n`, the one at `n`, then the rest. */
  lemma RunAroundAt(p: Parsed, tags: seq<Tag>, n: nat)
    requires n < |tags|
    ensures Run(p, tags) == Run(Pass(Run(p, tags[..n]), tags[n]), tags[n + 1..])
  {
    var t := tags[n];
    var before, after := tags[..n], tags[n + 1..];
    assert tags == before + [t] + after;
    var q := Run(p, before);
    assert Run(q, [t]) == Pass(q, t) by {
      assert [t][1..] == [];
    }
    RunAppend(p, before, [t]);
    RunAppend(p, before + [t], after);
  }

  /** When only `t` acts, running all the tags is its one step. */
  lemma RunThrough(p: Parsed, t: Tag, q: Parsed)
    requires Run(p, Order[..Rank(t)]) == p
    requires Pass(p, t) == q
    requires Run(q, Order[Rank(t) + 1..]) == q
    ensures Run(p, Order) == q
  {
    RunAround(p, t);
  }

  /** Where the only `[` starts a tag's opening, the tags before it find nothing. */
  lemma SkipBefore(s: string, i: nat, t: Tag)
    requires At(s, Opening(t), i)
    requires forall j :: 0 <= j < |s| && j != i ==> s[j] != '['
    ensures Run(Parsed(s, []), Order[..Rank(t)]) == Parsed(s, [])
  {
    var before := Order[..Rank(t)];
    forall k | 0 <= k < |before| ensures FindFrom(s, before[k], 0).None? {
      RankOfOrder(k);
      OtherTagsMiss(s, i, t, before[k]);
    }
    RunSkips(Parsed(s, []), before);
  }

  /** The first step on a raw reply, when it finds a match. */
  lemma PassFound(s: string, t: Tag, m: Match)
    requires FindFrom(s, t, 0) == Some(m)
    ensures Pass(Parsed(s, []), t) == Parsed(Trim(s[..m.start] + s[m.end..]), CommandFor(t, m.capture))
  {
    assert [] + CommandFor(t, m.capture) == CommandFor(t, m.capture);
  }

  /** Cutting out the one `[` and trimming leaves none. */
  lemma CutNoBracket(s: string, i: nat, e: nat)
    requires i < e <= |s|
    requires forall j :: 0 <= j < |s| && j != i ==> s[j] != '['
    ensures '[' !in Trim(s[..i] + s[e..])
  {
    var rest := s[..i] + s[e..];
    forall k | 0 <= k < |rest| ensures rest[k] != '[' {
      if k < i {
        assert rest[k] == s[k];
      } else {
        assert rest[k] == s[k - i + e];
      }
    }
    TrimNoBracket(rest);
  }

  /** Trimming adds no `[`. */
  lemma TrimNoBracket(x: string)
    requires '[' !in x
    ensures '[' !in Trim(x)
  {
    var y := TrimStart(x);
    assert forall c :: c in y ==> c in x;
  }

  /** Where the only `[` starts a tag's text, ending at `e`, that tag's pass cuts it out and leaves no `[`. */
  lemma PassAtTag(s: string, i: nat, e: nat, t: Tag, capture: string)
    requires FitsTag(t, capture)
    requires e == i + |TagText(t, capture)| <= |s| && s[i..e] == TagText(t, capture)
    requires forall j :: 0 <= j < |s| && j != i ==> s[j] != '['
    ensures Pass(Parsed(s, []), t) == Parsed(Trim(s[..i] + s[e..]), CommandFor(t, capture))
    ensures '[' !in Trim(s[..i] + s[e..])
  {
    var m := Match(i, e, capture);
    assert FindFrom(s, t, 0) == Some(m) by {
      FoundAt(s, i, e, t, capture);
    }
    assert Pass(Parsed(s, []), t) == Parsed(Trim(s[..i] + s[e..]), CommandFor(t, capture)) by {
      PassFound(s, t, m);
    }
    assert '[' !in Trim(s[..i] + s[e..]) by {
      CutNoBracket(s, i, e);
    }
  }

  /** Where the only `[` starts a tag's text, ending at `e`, that tag alone is acted on. */
  lemma OneTagAt(s: string, i: nat, e: nat, t: Tag, capture: string)
    requires FitsTag(t, capture)
    requires e == i + |TagText(t, capture)| <= |s| && s[i..e] == TagText(t, capture)
    requires forall j :: 0 <= j < |s| && j != i ==> s[j] != '['
    ensures Run(Parsed(s, []), Order) == Parsed(Trim(s[..i] + s[e..]), CommandFor(t, capture))
  {
    var p := Parsed(s, []);
    var q := Parsed(Trim(s[..i] + s[e..]), CommandFor(t, capture));
    TagTextParts(s, i, e, t, capture);
    SkipBefore(s, i, t);
    PassAtTag(s, i, e, t, capture);
    RunUnchanged(q, Order[Rank(t) + 1..]);
    RunThrough(p, t, q);
  }

  /**
   * A reply carrying a single tag: the tag is cut out, the rest trimmed,
   * and the tag's command recorded with the capture it holds.
   */
  lemma OneTag(a: string, t: Tag, capture: string, b: string)
    requires '[' !in a && '[' !in b && FitsTag(t, capture)
    ensures ParseCommands(a + TagText(t, capture) + b) == Parsed(Trim(a + b), CommandFor(t, capture))
  {
    var w := TagText(t, capture);
    Middle(a, w, b);
    OneBracket(a, t, capture, b);
    OneTagAt(a + w + b, |a|, |a| + |w|, t, capture);
  }
}
