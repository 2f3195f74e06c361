/**
 Order states and status spelling: skopaq/broker/order_status.py.

 White space is Python's `str.isspace`; upper-casing is any one that agrees with ASCII. Quantities are
 exact numbers (`real` for `Decimal`).
*/
module OrderStatus {
  import opened Wrappers

  /** What an order's status means. */
  datatype OrderState = Working | Filled | PartialDone | Cancelled | Rejected | Unrecognised

  predicate IsOpen(state: OrderState) {
    state == Working || state == Unrecognised
  }

  const WORKING: set<string> := {
    "QUEUED", "O-PENDING", "SL-PENDING", "PROCESSING", "INITIATED", "MODIFIED", "PENDING",
    "PARTIALLY FILLED", "OPEN", "TRIGGER PENDING", "CREATED", "RECEIVED"
  }
  const FILLED: set<string> := {"SUCCESS", "COMPLETE", "COMPLETED", "EXECUTED", "TRADED", "FILLED"}
  const PARTIAL_FINAL: set<string> := {PF_CANCELLED, PF_EXPIRED}
  const CANCELLED: set<string> := {"CANCELLED", "EXPIRED"}
  const REJECTED: set<string> := {"FAILED", "ABORTED", "REJECTED"}

  const PF: string := "PARTIALLY FILLED"
  const PE: string := "PARTIALLY EXECUTED"
  const PF_CANCELLED: string := "PARTIALLY FILLED - CANCELLED"
  const PF_EXPIRED: string := "PARTIALLY FILLED - EXPIRED"

  // ---------------------------------------------------------------- spelling

  /** Python's white space characters. */
  predicate IsSpace(c: char) {
    var n := c as int;
    || 9 <= n <= 13 || 28 <= n <= 32 || n == 0x85 || n == 0xA0 || n == 0x1680
    || 0x2000 <= n <= 0x200A || n == 0x2028 || n == 0x2029 || n == 0x202F || n == 0x205F
    || n == 0x3000
  }

  /** `str.upper` of one character, which may become several. */
  type Casing = char -> string

  function AsciiUpper(c: char): char { if 'a' <= c <= 'z' then (c as int - 32) as char else c }

  const ASCII: Casing := c => [AsciiUpper(c)]

  /** A full upper-casing: it agrees with ASCII, and nothing in a result is left to raise. */
  ghost predicate Proper(up: Casing) {
    && (forall c: char :: c as int < 128 ==> up(c) == [AsciiUpper(c)])
    && (forall c: char, d: char :: d in up(c) ==> up(d) == [d])
  }

  function Upper(up: Casing, s: string): string {
    if s == "" then "" else up(s[0]) + Upper(up, s[1..])
  }

  function Spaced(s: string): (r: string)
    ensures |r| == |s|
    ensures forall i :: 0 <= i < |s| ==> r[i] == if s[i] == '_' then ' ' else s[i]
  {
    seq(|s|, i requires 0 <= i < |s| => if s[i] == '_' then ' ' else s[i])
  }

  /** `upper()` and `replace("_", " ")`. */
  function LoudAll(up: Casing, s: string): string { Spaced(Upper(up, s)) }

  /** What `\s*` at the front of a pattern removes. */
  function DropSpaces(s: string): (r: string)
    ensures |r| <= |s| && r == s[|s| - |r|..]
    ensures r == "" || !IsSpace(r[0])
  {
    if s != "" && IsSpace(s[0]) then DropSpaces(s[1..]) else s
  }

  function FirstWord(s: string): (w: string)
    ensures w <= s
    ensures forall c :: c in w ==> !IsSpace(c)
    ensures |w| < |s| ==> IsSpace(s[|w|])
  {
    if s == "" || IsSpace(s[0]) then "" else [s[0]] + FirstWord(s[1..])
  }

  /** `" ".join(s.split())`. */
  function Collapse(s: string): string
    decreases |s|
  {
    var t := DropSpaces(s);
    if t == "" then ""
    else
      var w := FirstWord(t);
      var rest := Collapse(t[|w|..]);
      if rest == "" then w else w + " " + rest
  }

  /** `re.sub(r"^\s*-?\s*", "", s)`. */
  function StripSeparator(s: string): string {
    var t := DropSpaces(s);
    DropSpaces(if t != "" && t[0] == '-' then t[1..] else t)
  }

  /** `re.sub(r"\s*-\s*", "-", s)`. */
  function TightenDashes(s: string): string
    decreases |s|
  {
    if s == "" then ""
    else
      var t := DropSpaces(s);
      if t != "" && t[0] == '-' then "-" + TightenDashes(DropSpaces(t[1..]))
      else [s[0]] + TightenDashes(s[1..])
  }

  /** The short feed codes and what they stand for. */
  function Alias(key: string): Option<string> {
    if key == "PF" then Some(PF)
    else if key == "PF-CANCELLED" || key == "PFC" then Some(PF_CANCELLED)
    else if key == "PF-EXPIRED" then Some(PF_EXPIRED)
    else if key == "RJ" then Some("REJECTED")
    else None
  }

  /** Upper case, underscores as spaces, single spaces: the spelling-free form of a status. */
  function Tidied(up: Casing, raw: string): string {
    Collapse(LoudAll(up, raw))
  }

  function RewritePrefix(s: string, old_: string, new_: string): string {
    if old_ <= s then new_ + s[|old_|..] else s
  }

  /** One ` - ` between `head` and what follows it. */
  function NormaliseTail(s: string, head: string): string {
    if head <= s then WithTail(head, s[|head|..]) else s
  }

  function WithTail(head: string, tail: string): string {
    var rest := StripSeparator(tail);
    if rest == "" then head else head + " - " + rest
  }

  /** `PARTIALLY EXECUTED` as `PARTIALLY FILLED`, and one ` - ` before what follows it. */
  function Reshape(s: string): string {
    NormaliseTail(RewritePrefix(s, PE, PF), PF)
  }

  function Resolve(s: string): string {
    match Alias(TightenDashes(s))
    case Some(full) => full
    case None => s
  }

  /** `normalise_status`; `None` stands for anything that is not a string. */
  function NormaliseWith(up: Casing, raw: Option<string>): string {
    if raw.None? then "" else Resolve(Reshape(Tidied(up, raw.value)))
  }

  /** The broker's statuses are ASCII. */
  function NormaliseStatus(raw: Option<string>): string { NormaliseWith(ASCII, raw) }

  // ---------------------------------------------------------------- tidy strings

  lemma Uncons(s: string)
    requires s != ""
    ensures s == [s[0]] + s[1..]
  {}

  lemma DropDrop(s: string, k: nat)
    requires k < |s|
    ensures s[k..][1..] == s[k + 1..]
  {}

  lemma Rejoin(w: string, t: string)
    requires t != "" && t[0] == ' '
    ensures w + " " + t[1..] == w + t
  {}

  ghost predicate WordLike(w: string) {
    w != "" && forall c | c in w :: !IsSpace(c)
  }

  /** Words with exactly one blank between them. */
  ghost predicate SingleSpaced(s: string)
    decreases |s|
  {
    s == "" ||
    var w := FirstWord(s);
    w != "" &&
    (|w| == |s| || (s[|w|] == ' ' && |w| + 1 < |s| && SingleSpaced(s[|w| + 1..])))
  }

  /** Nothing left to upper-case. */
  ghost predicate AllLoud(up: Casing, s: string) {
    forall c | c in s :: up(c) == [c] && c != '_'
  }

  lemma {:induction false} FirstWordIs(w: string, t: string)
    requires WordLike(w)
    requires t == "" || IsSpace(t[0])
    ensures FirstWord(w + t) == w
  {
    assert (w + t)[0] == w[0] && w[0] in w;
    if |w| == 1 {
      assert (w + t)[1..] == t;
    } else {
      assert (w + t)[1..] == w[1..] + t;
      assert forall c | c in w[1..] :: c in w;
      FirstWordIs(w[1..], t);
    }
  }

  lemma WordsJoin(w: string, rest: string)
    requires WordLike(w) && SingleSpaced(rest) && rest != ""
    ensures SingleSpaced(w + " " + rest)
  {
    var s := w + " " + rest;
    assert s == w + (" " + rest);
    FirstWordIs(w, " " + rest);
    assert s[|w| + 1..] == rest;
  }

  lemma WordAlone(w: string)
    requires WordLike(w)
    ensures SingleSpaced(w)
  {
    FirstWordIs(w, "");
    assert w + "" == w;
  }

  lemma {:induction false} CollapseSpaces(s: string)
    ensures SingleSpaced(Collapse(s))
    decreases |s|
  {
    var t := DropSpaces(s);
    if t != "" {
      var w := FirstWord(t);
      assert w != "";
      CollapseSpaces(t[|w|..]);
      var rest := Collapse(t[|w|..]);
      if rest == "" { WordAlone(w); } else { WordsJoin(w, rest); }
    }
  }

  lemma SuffixKeepsLoud(up: Casing, s: string, k: nat)
    requires AllLoud(up, s) && k <= |s|
    ensures AllLoud(up, s[k..])
  {}

  lemma PrefixKeepsLoud(up: Casing, w: string, s: string)
    requires AllLoud(up, s) && w <= s
    ensures AllLoud(up, w)
  {
    assert forall c | c in w :: c in s;
  }

  lemma JoinKeepsLoud(up: Casing, a: string, b: string)
    requires AllLoud(up, a) && AllLoud(up, b)
    ensures AllLoud(up, a + b)
  {}

  lemma WordKeepsLoud(up: Casing, w: string, rest: string)
    requires Proper(up) && AllLoud(up, w) && AllLoud(up, rest)
    ensures AllLoud(up, w + " " + rest)
  {
    assert AllLoud(up, " ");
    JoinKeepsLoud(up, w, " ");
    JoinKeepsLoud(up, w + " ", rest);
  }

  lemma {:induction false} CollapseKeepsLoud(up: Casing, s: string)
    requires Proper(up) && AllLoud(up, s)
    ensures AllLoud(up, Collapse(s))
    decreases |s|
  {
    var t := DropSpaces(s);
    if t != "" {
      var w := FirstWord(t);
      SuffixKeepsLoud(up, s, |s| - |t|);
      SuffixKeepsLoud(up, t, |w|);
      PrefixKeepsLoud(up, w, t);
      CollapseKeepsLoud(up, t[|w|..]);
      WordKeepsLoud(up, w, Collapse(t[|w|..]));
      hide AllLoud, IsSpace;
    }
  }

  lemma CollapseSkipsOne(s: string)
    requires s != "" && IsSpace(s[0])
    ensures Collapse(s) == Collapse(s[1..])
  {
    assert DropSpaces(s) == DropSpaces(s[1..]);
  }

  lemma CollapseWord(w: string, t: string)
    requires WordLike(w)
    requires t == "" || IsSpace(t[0])
    ensures Collapse(w + t) == if Collapse(t) == "" then w else w + " " + Collapse(t)
  {
    FirstWordIs(w, t);
    assert (w + t)[0] == w[0] && w[0] in w;
    assert (w + t)[|w|..] == t;
  }

  lemma {:induction false} CollapseKeeps(s: string)
    requires SingleSpaced(s)
    ensures Collapse(s) == s
    decreases |s|
  {
    if s != "" {
      var w := FirstWord(s);
      var t := s[|w|..];
      assert s == w + t;
      CollapseWord(w, t);
      if t != "" {
        Uncons(t);
        DropDrop(s, |w|);
        CollapseKeeps(t[1..]);
        CollapseSkipsOne(t);
        Rejoin(w, t);
      }
    }
  }

  /** The end of a single-spaced string is single-spaced when it starts with a letter. */
  lemma {:induction false} SpacedSuffix(s: string, k: nat)
    requires SingleSpaced(s) && k <= |s|
    requires k < |s| ==> !IsSpace(s[k])
    ensures SingleSpaced(s[k..])
    decreases |s|
  {
    if k < |s| {
      var w := FirstWord(s);
      if k < |w| {
        InsideFirstWord(s, k);
      } else {
        DropSum(s, |w| + 1, k - |w| - 1);
        SpacedSuffix(s[|w| + 1..], k - |w| - 1);
      }
    }
  }

  lemma InsideFirstWord(s: string, k: nat)
    requires SingleSpaced(s) && k < |FirstWord(s)|
    ensures SingleSpaced(s[k..])
  {
    var w := FirstWord(s);
    var v, t := w[k..], s[|w|..];
    SuffixOfWord(w, k);
    PrefixIsTake(w, s);
    SplitSuffix(s, k, |w|);
    if t == "" {
      assert s[k..] == v;
      WordAlone(v);
    } else {
      DropDrop(s, |w|);
      WordsJoin(v, t[1..]);
      Rejoin(v, t);
    }
  }

  lemma SuffixOfWord(w: string, k: nat)
    requires k < |w| && forall c | c in w :: !IsSpace(c)
    ensures WordLike(w[k..])
  {}

  lemma SplitSuffix(s: string, k: nat, n: nat)
    requires k <= n <= |s|
    ensures s[k..] == s[..n][k..] + s[n..]
  {}

  lemma DropSum(s: string, j: nat, k: nat)
    requires j + k <= |s|
    ensures s[j..][k..] == s[j + k..]
  {}

  lemma PrefixIsTake(w: string, s: string)
    requires w <= s
    ensures w == s[..|w|]
  {}

  ghost predicate Tidy(up: Casing, s: string) {
    SingleSpaced(s) && AllLoud(up, s)
  }

  lemma {:induction false} UpperIsStable(up: Casing, s: string)
    requires Proper(up)
    ensures forall c :: c in Upper(up, s) ==> up(c) == [c]
    ensures AllLoud(up, LoudAll(up, s))
  {
    if s != "" {
      UpperIsStable(up, s[1..]);
    }
  }

  lemma {:induction false} UpperStays(up: Casing, s: string)
    requires AllLoud(up, s)
    ensures Upper(up, s) == s
  {
    if s != "" {
      assert s[0] in s && forall c | c in s[1..] :: c in s;
      UpperStays(up, s[1..]);
    }
  }

  lemma LoudStays(up: Casing, s: string)
    requires AllLoud(up, s)
    ensures LoudAll(up, s) == s
  {
    UpperStays(up, s);
    assert forall i | 0 <= i < |s| :: s[i] in s;
  }

  lemma TidiedIsTidy(up: Casing, raw: string)
    requires Proper(up)
    ensures Tidy(up, Tidied(up, raw))
  {
    var l := LoudAll(up, raw);
    UpperIsStable(up, raw);
    CollapseSpaces(l);
    CollapseKeepsLoud(up, l);
  }

  lemma TidiedKeepsTidy(up: Casing, s: string)
    requires Tidy(up, s)
    ensures Tidied(up, s) == s
  {
    LoudStays(up, s);
    CollapseKeeps(s);
  }

  // ---------------------------------------------------------------- reshaping

  /** What is left, by what comes after the first blanks. */
  lemma StripSeparatorOf(s: string)
    ensures var t := DropSpaces(s);
      StripSeparator(s) == if t != "" && t[0] == '-' then DropSpaces(t[1..]) else t
  {
    hide IsSpace;
    AlreadyDropped(s);
  }

  lemma AlreadyDropped(s: string)
    ensures DropSpaces(DropSpaces(s)) == DropSpaces(s)
  {
    hide IsSpace;
    var r := DropSpaces(s);
    assert r == "" || !IsSpace(r[0]);
    assert DropSpaces(r) == r;
  }

  ghost predicate Suffix(r: string, s: string) { |r| <= |s| && r == s[|s| - |r|..] }

  lemma SuffixOfSuffix(a: string, b: string, c: string)
    requires Suffix(a, b) && Suffix(b, c)
    ensures Suffix(a, c)
  {
    DropSum(c, |c| - |b|, |b| - |a|);
  }

  lemma StripSeparatorIsSuffix(s: string)
    ensures Suffix(StripSeparator(s), s)
    ensures StripSeparator(s) != "" ==> !IsSpace(StripSeparator(s)[0])
  {
    hide IsSpace, StripSeparator;
    StripSeparatorOf(s);
    var t := DropSpaces(s);
    if t != "" && t[0] == '-' {
      var r := DropSpaces(t[1..]);
      assert Suffix(r, t[1..]) && Suffix(t[1..], t) && Suffix(t, s);
      hide DropSpaces, Suffix;
      SuffixOfSuffix(r, t[1..], t);
      SuffixOfSuffix(r, t, s);
    }
  }

  lemma SeparatorComesOff(rest: string)
    requires rest != "" && !IsSpace(rest[0])
    ensures StripSeparator(" - " + rest) == rest
  {
    var s := " - " + rest;
    assert s[1..] == "- " + rest && s[1..][1..] == " " + rest;
    assert (" " + rest)[1..] == rest;
    assert DropSpaces(rest) == rest;
    assert DropSpaces("- " + rest) == "- " + rest;
    assert DropSpaces(s) == "- " + rest;
    assert DropSpaces(" " + rest) == rest;
  }

  lemma {:induction false} SpacedJoin(a: string, b: string)
    requires SingleSpaced(a) && a != "" && SingleSpaced(b) && b != ""
    ensures SingleSpaced(a + " " + b)
    decreases |a|
  {
    var w := FirstWord(a);
    if |w| == |a| {
      assert w == a;
      WordsJoin(w, b);
    } else {
      var a' := a[|w| + 1..];
      SpacedJoin(a', b);
      WordsJoin(w, a' + " " + b);
      SplitAt(a, |w|);
      PrefixIsTake(w, a);
      Reassociate(w, a', b);
    }
  }

  lemma Reassociate(a: string, b: string, c: string)
    ensures (a + " " + b) + " " + c == a + " " + (b + " " + c)
  {}

  lemma SplitAt(s: string, k: nat)
    requires k < |s| && s[k] == ' '
    ensures s == s[..k] + " " + s[k + 1..]
  {}

  lemma DashedIsTidy(up: Casing, head: string, rest: string)
    requires Proper(up)
    requires Tidy(up, head) && head != "" && Tidy(up, rest) && rest != ""
    ensures Tidy(up, head + " - " + rest)
  {
    DashIsAWord(up);
    WordsJoin("-", rest);
    SpacedJoin(head, "-" + " " + rest);
    DashJoin(head, rest);
    JoinKeepsLoud(up, head, " - ");
    JoinKeepsLoud(up, head + " - ", rest);
    hide SingleSpaced, WordLike;
  }

  lemma DashIsAWord(up: Casing)
    requires Proper(up)
    ensures WordLike("-") && AllLoud(up, " - ")
  {}

  lemma DashJoin(head: string, rest: string)
    ensures head + " " + ("-" + " " + rest) == head + " - " + rest
  {}

  lemma NothingComesOff()
    ensures StripSeparator("") == ""
  {}

  /** Whatever followed the head, the result is tidy and a second pass leaves it alone. */
  lemma WithTailIsTidy(up: Casing, head: string, s: string, k: nat)
    requires Proper(up)
    requires Tidy(up, head) && head != "" && Tidy(up, s) && k <= |s|
    ensures Tidy(up, WithTail(head, s[k..])) && head <= WithTail(head, s[k..])
    ensures NormaliseTail(WithTail(head, s[k..]), head) == WithTail(head, s[k..])
  {
    hide SingleSpaced, AllLoud, WordLike, IsSpace, StripSeparator;
    var tail := s[k..];
    var rest := StripSeparator(tail);
    StripSeparatorIsSuffix(tail);
    if rest == "" {
      assert head[|head|..] == "";
      NothingComesOff();
    } else {
      var m := |tail| - |rest|;
      DropSum(s, k, m);
      SpacedSuffix(s, k + m);
      SuffixKeepsLoud(up, s, k + m);
      DashedIsTidy(up, head, rest);
      AfterHead(head, " - ", rest);
      SeparatorComesOff(rest);
    }
  }

  lemma AfterHead(head: string, sep: string, rest: string)
    ensures (head + sep + rest)[|head|..] == sep + rest
    ensures head <= head + sep + rest
  {}

  lemma PfIsTidy(up: Casing)
    requires Proper(up)
    ensures Tidy(up, PF) && |PF| == 16
  {
    PfSplits();
    PfIsSpaced();
    PfIsLoud(up);
  }

  lemma PfSplits()
    ensures PF == "PARTIALLY" + " " + "FILLED" && |PF| == 16
  {}

  lemma PfIsSpaced()
    ensures SingleSpaced("PARTIALLY" + " " + "FILLED")
  {
    Capitals("PARTIALLY");
    Capitals("FILLED");
    WordAlone("FILLED");
    WordsJoin("PARTIALLY", "FILLED");
  }

  lemma PfIsLoud(up: Casing)
    requires Proper(up)
    ensures AllLoud(up, "PARTIALLY" + " " + "FILLED")
  {
    PlainWord(up, "PARTIALLY");
    PlainWord(up, "FILLED");
    JoinKeepsLoud(up, "PARTIALLY", " ");
    JoinKeepsLoud(up, "PARTIALLY" + " ", "FILLED");
  }

  lemma Capitals(w: string)
    requires w != "" && forall i :: 0 <= i < |w| ==> 'A' <= w[i] <= 'Z'
    ensures WordLike(w)
  {}

  lemma PlainWord(up: Casing, w: string)
    requires Proper(up)
    requires w != "" && forall i :: 0 <= i < |w| ==> 'A' <= w[i] <= 'Z'
    ensures WordLike(w) && AllLoud(up, w)
  {}

  /** No string starts with both long forms. */
  lemma FilledIsNotExecuted(s: string)
    requires PF <= s
    ensures !(PE <= s)
  {
    assert s[10] == PF[10];
  }

  lemma HeadOfJoin(head: string, t: string)
    ensures head <= head + t && (head + t)[|head|..] == t
  {}

  lemma TailOfHead(head: string, tail: string)
    ensures NormaliseTail(head + tail, head) == WithTail(head, tail)
  {
    HeadOfJoin(head, tail);
  }

  /** Either long form ends up as PARTIALLY FILLED and its tail. */
  lemma ReshapeLong(head: string, tail: string)
    requires head == PF || head == PE
    ensures Reshape(head + tail) == WithTail(PF, tail)
  {
    hide WithTail;
    HeadOfJoin(head, tail);
    TailOfHead(PF, tail);
    if head == PF {
      ReshapeFilled(PF + tail);
    }
  }

  lemma ReshapeFilled(s: string)
    requires PF <= s
    ensures Reshape(s) == NormaliseTail(s, PF)
  {
    FilledIsNotExecuted(s);
  }

  lemma ReshapeTidies(up: Casing, s: string)
    requires Proper(up)
    requires Tidy(up, s)
    ensures Tidy(up, Reshape(s)) && Reshape(Reshape(s)) == Reshape(s)
  {
    if PE <= s {
      LongTidies(up, s, PE);
    } else if PF <= s {
      LongTidies(up, s, PF);
    }
  }

  lemma LongTidies(up: Casing, s: string, head: string)
    requires Proper(up) && Tidy(up, s) && (head == PF || head == PE) && head <= s
    ensures Tidy(up, Reshape(s)) && Reshape(Reshape(s)) == Reshape(s)
  {
    hide Tidy, WithTail, NormaliseTail, Reshape;
    var tail := s[|head|..];
    assert s == head + tail;
    ReshapeLong(head, tail);
    PfIsTidy(up);
    PfIsSomething();
    WithTailIsTidy(up, PF, s, |head|);
    ReshapeFilled(WithTail(PF, tail));
  }

  lemma PfIsSomething()
    ensures PF != ""
  {}

  // ---------------------------------------------------------------- short codes

  /** The first two letters survive tightening, so a short code is never a long name's key. */
  lemma TightenKeepsTwo(s: string)
    requires |s| >= 2
    requires !IsSpace(s[0]) && s[0] != '-' && !IsSpace(s[1]) && s[1] != '-'
    ensures |TightenDashes(s)| >= 2
    ensures TightenDashes(s)[0] == s[0] && TightenDashes(s)[1] == s[1]
  {
    var u := s[1..];
    assert DropSpaces(s) == s && DropSpaces(u) == u;
    assert TightenDashes(s) == [s[0]] + TightenDashes(u);
    assert TightenDashes(u) == [u[0]] + TightenDashes(u[1..]);
  }

  lemma NoSuchCode(key: string)
    requires |key| >= 2 && key[1] != 'F' && key[1] != 'J'
    ensures Alias(key) == None
  {}

  lemma NotACode(s: string)
    requires |s| >= 2 && !IsSpace(s[0]) && s[0] != '-' && !IsSpace(s[1]) && s[1] != '-'
    requires s[1] != 'F' && s[1] != 'J'
    ensures Resolve(s) == s
  {
    TightenKeepsTwo(s);
    NoSuchCode(TightenDashes(s));
  }

  ghost predicate FullName(s: string) {
    s == PF || s == PF_CANCELLED || s == PF_EXPIRED || s == "REJECTED"
  }

  lemma FullNameFixed(up: Casing, s: string)
    requires Proper(up)
    requires FullName(s)
    ensures Tidy(up, s) && Reshape(s) == s && Resolve(s) == s
  {
    if s == PF {
      PfFixed(up);
    } else if s == "REJECTED" {
      RejectedFixed(up);
    } else {
      if s == PF_CANCELLED {
        PlainWord(up, "CANCELLED");
        PartialNameFixed(up, s, "CANCELLED");
      } else {
        PlainWord(up, "EXPIRED");
        PartialNameFixed(up, s, "EXPIRED");
      }
    }
  }

  lemma PfFixed(up: Casing)
    requires Proper(up)
    ensures Tidy(up, PF) && Reshape(PF) == PF && Resolve(PF) == PF
  {
    PfIsTidy(up);
    FilledIsNotExecuted(PF);
    assert PF[|PF|..] == "";
    NotACode(PF);
  }

  lemma RejectedFixed(up: Casing)
    requires Proper(up)
    ensures var s := "REJECTED"; Tidy(up, s) && Reshape(s) == s && Resolve(s) == s
  {
    PlainWord(up, "REJECTED");
    WordAlone("REJECTED");
    NotALongForm("REJECTED");
    NotACode("REJECTED");
  }

  lemma NotALongForm(s: string)
    requires s != "" && s[0] != 'P'
    ensures Reshape(s) == s
  {
    assert PF[0] == 'P' && PE[0] == 'P';
  }

  lemma PartialNameFixed(up: Casing, s: string, rest: string)
    requires Proper(up)
    requires WordLike(rest) && AllLoud(up, rest)
    requires s == PF + " - " + rest
    ensures Tidy(up, s) && Reshape(s) == s && Resolve(s) == s
  {
    PfIsTidy(up);
    WordAlone(rest);
    DashedIsTidy(up, PF, rest);
    AfterHead(PF, " - ", rest);
    FilledIsNotExecuted(s);
    SeparatorComesOff(rest);
    assert s[0] == PF[0] && s[1] == PF[1];
    NotACode(s);
  }

  /** Normalising twice changes nothing, on every string. */
  lemma NormaliseIsIdempotent(up: Casing, raw: Option<string>)
    requires Proper(up)
    ensures NormaliseWith(up, Some(NormaliseWith(up, raw))) == NormaliseWith(up, raw)
  {
    if raw.None? {
      EmptyStaysEmpty(up);
    } else {
      var s := Reshape(Tidied(up, raw.value));
      TidiedIsTidy(up, raw.value);
      ReshapeTidies(up, Tidied(up, raw.value));
      var n := Resolve(s);
      if FullName(n) {
        FullNameFixed(up, n);
      } else {
        OnlyFullNamesChange(s);
      }
      TidiedKeepsTidy(up, n);
    }
  }

  lemma OnlyFullNamesChange(s: string)
    ensures Resolve(s) == s || FullName(Resolve(s))
  {
    CodesAreFullNames(TightenDashes(s));
  }

  lemma CodesAreFullNames(key: string)
    ensures Alias(key).Some? ==> FullName(Alias(key).value)
  {}

  lemma EmptyStaysEmpty(up: Casing)
    ensures NormaliseWith(up, Some("")) == ""
  {
    assert TightenDashes("") == "";
  }

  // ---------------------------------------------------------------- spelling variants

  ghost predicate Blank(s: string) {
    forall i :: 0 <= i < |s| ==> IsSpace(s[i])
  }

  lemma {:induction false} BlanksComeOff(a: string, t: string)
    requires Blank(a) && (t == "" || !IsSpace(t[0]))
    ensures DropSpaces(a + t) == t
  {
    if a == "" {
      assert a + t == t;
    } else {
      assert (a + t)[0] == a[0] && (a + t)[1..] == a[1..] + t;
      BlanksComeOff(a[1..], t);
    }
  }

  lemma {:induction false} CollapseSkipsBlanks(x: string, b: string)
    requires Blank(x)
    ensures Collapse(x + b) == Collapse(b)
  {
    if x == "" {
      assert x + b == b;
    } else {
      CollapseSkipsOne(x + b);
      assert (x + b)[1..] == x[1..] + b;
      CollapseSkipsBlanks(x[1..], b);
    }
  }

  /** `words` with these blanks before, between and after them. */
  function Spread(words: seq<string>, gaps: seq<string>): string
    requires |gaps| == |words| + 1
  {
    if words == [] then gaps[0] else gaps[0] + (words[0] + Spread(words[1..], gaps[1..]))
  }

  /** `s` is these words, kept apart by blanks; blanks may also come first and last. */
  ghost predicate ReadsAs(s: string, words: seq<string>, gaps: seq<string>) {
    && |gaps| == |words| + 1 && s == Spread(words, gaps)
    && (forall i :: 0 <= i < |words| ==> WordLike(words[i]))
    && (forall i :: 0 <= i < |gaps| ==> Blank(gaps[i]))
    && (forall i :: 0 < i < |words| ==> gaps[i] != "")
  }

  function Join(words: seq<string>): string {
    if words == [] then "" else if |words| == 1 then words[0] else words[0] + " " + Join(words[1..])
  }

  lemma ReadsRest(words: seq<string>, gaps: seq<string>)
    requires words != [] && |gaps| == |words| + 1 && ReadsAs(Spread(words, gaps), words, gaps)
    ensures var t := Spread(words[1..], gaps[1..]);
      ReadsAs(t, words[1..], gaps[1..]) && (t == "" || IsSpace(t[0]))
  {}

  lemma {:induction false} SpreadCollapses(s: string, words: seq<string>, gaps: seq<string>)
    requires ReadsAs(s, words, gaps)
    ensures Collapse(s) == Join(words)
    decreases |words|
  {
    if words == [] {
      CollapseSkipsBlanks(s, "");
      assert s + "" == s;
    } else {
      var w, t := words[0], Spread(words[1..], gaps[1..]);
      ReadsRest(words, gaps);
      CollapseSkipsBlanks(gaps[0], w + t);
      CollapseWord(w, t);
      SpreadCollapses(t, words[1..], gaps[1..]);
      if |words| > 1 {
        JoinStarts(words[1..]);
      }
    }
  }

  /** A joined text starts with its first word, whole. */
  lemma JoinStarts(words: seq<string>)
    requires words != [] && forall i :: 0 <= i < |words| ==> WordLike(words[i])
    ensures FirstWord(Join(words)) == words[0] && Join(words) != ""
    ensures |words| > 1 ==> Join(words)[|words[0]|] == ' ' && Join(words)[|words[0]| + 1..] == Join(words[1..])
  {
    assert IsSpace(' ');
    hide IsSpace;
    var w := words[0];
    if |words| == 1 {
      FirstWordIs(w, "");
      assert w + "" == w;
    } else {
      FirstWordIs(w, " " + Join(words[1..]));
      assert Join(words) == w + (" " + Join(words[1..]));
    }
  }

  lemma {:induction false} JoinIsInjective(words: seq<string>, others: seq<string>)
    requires forall i :: 0 <= i < |words| ==> WordLike(words[i])
    requires forall i :: 0 <= i < |others| ==> WordLike(others[i])
    requires Join(words) == Join(others)
    ensures words == others
  {
    if words == [] {
      if others != [] { JoinStarts(others); }
    } else {
      JoinStarts(words);
      if others != [] { JoinStarts(others); }
      if |words| > 1 && |others| > 1 {
        JoinIsInjective(words[1..], others[1..]);
      }
    }
  }

  /** Every string is some words with blanks around them. */
  lemma {:induction false} EveryStringReads(s: string) returns (words: seq<string>, gaps: seq<string>)
    ensures ReadsAs(s, words, gaps)
    decreases |s|
  {
    var t := DropSpaces(s);
    DropSpacesSplits(s);
    var gap := s[..Lead(s)];
    hide IsSpace, DropSpaces, FirstWord, ReadsAs, Spread, Blank, Lead, WordLike;
    if t == "" {
      words, gaps := [], [gap];
      BlankReads(s);
      assert gap == s;
    } else {
      var w := FirstWord(t);
      var rest := t[|w|..];
      var ws, gs := EveryStringReads(rest);
      words, gaps := [w] + ws, [gap] + gs;
      FirstWordIsWord(t);
      PrefixIsTake(w, t);
      assert t == w + rest && s == gap + t;
      ReadsMore(gap, w, rest, ws, gs);
    }
  }

  lemma FirstWordIsWord(t: string)
    requires t != "" && !IsSpace(t[0])
    ensures WordLike(FirstWord(t))
  {
    hide IsSpace;
  }

  lemma BlankReads(s: string)
    requires Blank(s)
    ensures ReadsAs(s, [], [s])
  {}

  lemma ReadsMore(gap: string, w: string, rest: string, ws: seq<string>, gs: seq<string>)
    requires Blank(gap) && WordLike(w) && ReadsAs(rest, ws, gs) && (rest == "" || IsSpace(rest[0]))
    ensures ReadsAs(gap + (w + rest), [w] + ws, [gap] + gs)
  {
    hide IsSpace, Blank, WordLike;
    assert ([w] + ws)[1..] == ws && ([gap] + gs)[1..] == gs;
    if ws != [] {
      assert rest != "" by { WordsAreSomething(rest, ws, gs); }
      BlankThenGap(rest, ws, gs);
    }
  }

  lemma WordsAreSomething(s: string, words: seq<string>, gaps: seq<string>)
    requires ReadsAs(s, words, gaps) && words != []
    ensures s != ""
  {
    assert |s| >= |words[0]| >= 1;
  }

  /** A blank in front is a gap in front. */
  lemma BlankThenGap(s: string, words: seq<string>, gaps: seq<string>)
    requires ReadsAs(s, words, gaps) && words != [] && s != "" && IsSpace(s[0])
    ensures gaps[0] != ""
  {
    hide IsSpace;
    assert words[0][0] in words[0];
  }

  /** How many blanks come off in front. */
  function Lead(s: string): (n: nat)
    ensures n <= |s|
  {
    |s| - |DropSpaces(s)|
  }

  lemma DropSpacesSplits(s: string)
    ensures Blank(s[..Lead(s)]) && s == s[..Lead(s)] + DropSpaces(s)
  {
    LeadIsBlank(s);
    hide IsSpace, DropSpaces;
  }

  lemma {:induction false} LeadIsBlank(s: string)
    ensures Blank(s[..Lead(s)])
  {
    hide IsSpace, Blank;
    if s != "" && IsSpace(s[0]) {
      LeadIsBlank(s[1..]);
      assert Lead(s) == Lead(s[1..]) + 1;
      BlankGrows(s, Lead(s[1..]));
    } else {
      assert Lead(s) == 0;
      NoneIsBlank(s[..0]);
    }
  }

  lemma NoneIsBlank(s: string)
    requires s == ""
    ensures Blank(s)
  {}

  lemma BlankGrows(s: string, k: nat)
    requires k < |s| && IsSpace(s[0]) && Blank(s[1..][..k])
    ensures Blank(s[..k + 1])
  {
    hide IsSpace;
    assert s[..k + 1] == [s[0]] + s[1..][..k];
  }

  /**
   The tidied form is the words and nothing else: two raw statuses are tidied alike exactly when, once
   upper-cased with underscores as spaces, they are the same words in any spacing.
  */
  lemma TidiedAlikeExactlyWhen(up: Casing, raw: string, other: string)
    ensures Tidied(up, raw) == Tidied(up, other) <==>
      exists words, gaps, gaps' ::
        ReadsAs(LoudAll(up, raw), words, gaps) && ReadsAs(LoudAll(up, other), words, gaps')
  {
    var ws, gs := EveryStringReads(LoudAll(up, raw));
    var vs, hs := EveryStringReads(LoudAll(up, other));
    SpreadCollapses(LoudAll(up, raw), ws, gs);
    SpreadCollapses(LoudAll(up, other), vs, hs);
    if Tidied(up, raw) == Tidied(up, other) {
      JoinIsInjective(ws, vs);
    }
    forall words, gaps, gaps' | ReadsAs(LoudAll(up, raw), words, gaps) && ReadsAs(LoudAll(up, other), words, gaps')
      ensures Tidied(up, raw) == Tidied(up, other)
    {
      SpreadCollapses(LoudAll(up, raw), words, gaps);
      SpreadCollapses(LoudAll(up, other), words, gaps');
    }
  }

  /** Case, underscores for spaces, and blanks anywhere, also first and last, make no difference. */
  lemma NormaliseIgnoresCaseAndBlanks(up: Casing, raw: string, other: string,
                                      words: seq<string>, gaps: seq<string>, gaps': seq<string>)
    requires ReadsAs(LoudAll(up, raw), words, gaps) && ReadsAs(LoudAll(up, other), words, gaps')
    ensures NormaliseWith(up, Some(raw)) == NormaliseWith(up, Some(other))
  {
    TidiedAlikeExactlyWhen(up, raw, other);
  }

  // ---------------------------------------------------------------- partial final statuses

  function Gap(a: string, dash: bool, b: string): string {
    if dash then a + "-" + b else a + b
  }

  /** Not blank and not a dash in front. */
  ghost predicate StartsPlain(word: string) {
    word == "" || (!IsSpace(word[0]) && word[0] != '-')
  }

  /** Blanks, at most one dash, blanks: all of it comes off. */
  lemma GapComesOff(a: string, dash: bool, b: string, word: string)
    requires Blank(a) && Blank(b) && StartsPlain(word)
    ensures StripSeparator(Gap(a, dash, b) + word) == word
  {
    hide StripSeparator, Blank, StartsPlain;
    if dash {
      DashComesOff(a, b, word);
    } else {
      JoinIsBlank(a, b);
      BlankComesOff(a + b, word);
    }
  }

  lemma JoinIsBlank(a: string, b: string)
    requires Blank(a) && Blank(b)
    ensures Blank(a + b)
  {
    hide IsSpace;
  }

  lemma BlankComesOff(a: string, word: string)
    requires Blank(a) && StartsPlain(word)
    ensures StripSeparator(a + word) == word
  {
    hide IsSpace, Blank, DropSpaces, StripSeparator;
    BlanksComeOff(a, word);
    StripSeparatorOf(a + word);
  }

  lemma DashComesOff(a: string, b: string, word: string)
    requires Blank(a) && Blank(b) && StartsPlain(word)
    ensures StripSeparator(a + "-" + b + word) == word
  {
    DashIsNotBlank();
    hide IsSpace, Blank, DropSpaces, StripSeparator;
    var t := "-" + (b + word);
    LeftAssociate(a, b, word);
    BlanksComeOff(a, t);
    BlanksComeOff(b, word);
    assert t[1..] == b + word;
    StripSeparatorOf(a + t);
  }

  lemma LeftAssociate(a: string, b: string, word: string)
    ensures a + "-" + b + word == a + ("-" + (b + word))
  {}

  /**
   However a partial final status is cased, spaced, underscored or dashed, and under either
   verb, it reaches one spelling; `word` is CANCELLED or EXPIRED in the documented ones.
  */
  lemma PartialFinalVariants(up: Casing, raw: string, head: string, a: string, dash: bool, b: string, word: string)
    requires Proper(up) && (head == PF || head == PE)
    requires word != "" && forall i :: 0 <= i < |word| ==> 'A' <= word[i] <= 'Z'
    requires Blank(a) && Blank(b)
    requires Tidied(up, raw) == head + (Gap(a, dash, b) + word)
    ensures NormaliseWith(up, Some(raw)) == PF + " - " + word
  {
    PlainWord(up, word);
    GapComesOff(a, dash, b, word);
    ReshapeLong(head, Gap(a, dash, b) + word);
    PartialNameFixed(up, PF + " - " + word, word);
  }

  // ---------------------------------------------------------------- which spellings are recognised

  /** Every blank is one space with a letter after it. */
  ghost predicate Neat(s: string) {
    forall i :: 0 <= i < |s| && IsSpace(s[i]) ==> s[i] == ' ' && i + 1 < |s| && !IsSpace(s[i + 1])
  }

  lemma {:induction false} SpacedIsNeat(s: string)
    requires SingleSpaced(s)
    ensures Neat(s) && (s == "" || !IsSpace(s[0]))
    decreases |s|
  {
    if s != "" {
      var w := FirstWord(s);
      PrefixIsTake(w, s);
      assert forall i | 0 <= i < |w| :: s[i] == w[i] && w[i] in w;
      if |w| < |s| {
        var r := s[|w| + 1..];
        SpacedIsNeat(r);
        forall i | 0 <= i < |s| && IsSpace(s[i]) ensures s[i] == ' ' && i + 1 < |s| && !IsSpace(s[i + 1]) {
          if i > |w| {
            assert r[i - |w| - 1] == s[i];
            assert r[i - |w|] == s[i + 1];
          } else {
            assert r[0] == s[i + 1];
          }
        }
      }
    }
  }

  /** A run of blanks in a neat string is nothing or one space. */
  lemma BlankInNeat(a: string, x: string, b: string)
    requires Neat(a + x + b) && Blank(x)
    ensures x == "" || x == " "
  {
    hide IsSpace;
    if |x| >= 2 {
      LongBlankIsNotNeat(a, x, b);
    } else if |x| == 1 {
      assert (a + x + b)[|a|] == x[0];
    }
  }

  lemma LongBlankIsNotNeat(a: string, x: string, b: string)
    requires Blank(x) && |x| >= 2
    ensures !Neat(a + x + b)
  {
    hide IsSpace;
    assert (a + x + b)[|a|] == x[0] && (a + x + b)[|a| + 1] == x[1];
    BlankPairIsNotNeat(a + x + b, |a|);
  }

  lemma BlankPairIsNotNeat(s: string, i: nat)
    requires i + 1 < |s|
    ensures IsSpace(s[i]) && IsSpace(s[i + 1]) ==> !Neat(s)
  {}

  /** What may stand between a long form and its last word, and in a short code. */
  const GAPS: set<string> := {"", " ", "-", " -", "- ", " - "}
  const DASHES: set<string> := {"-", " -", "- ", " - "}

  ghost predicate HasForm(t: string, head: string, gaps: set<string>, word: string) {
    exists gap :: gap in gaps && t == head + (gap + word)
  }

  ghost predicate LongForm(t: string, word: string) {
    HasForm(t, PF, GAPS, word) || HasForm(t, PE, GAPS, word)
  }

  /** Every tidied spelling that stands for the documented status `d`. */
  ghost predicate SpeltAs(t: string, d: string) {
    if d == PF then LongForm(t, "") || t == "PF"
    else if d == PF_CANCELLED then
      LongForm(t, "CANCELLED") || HasForm(t, "PF", DASHES, "CANCELLED") || t == "PFC"
    else if d == PF_EXPIRED then LongForm(t, "EXPIRED") || HasForm(t, "PF", DASHES, "EXPIRED")
    else if d == "REJECTED" then t == "REJECTED" || t == "RJ"
    else t == d
  }

  lemma GapParts(gap: string) returns (a: string, dash: bool, b: string)
    requires gap in GAPS
    ensures Blank(a) && Blank(b) && gap == Gap(a, dash, b)
  {
    a := if gap == "" || gap[0] != ' ' then "" else " ";
    dash := gap != "" && gap != " ";
    b := if gap == "- " || gap == " - " then " " else "";
  }

  /** The separator comes off down to `word` exactly when it is one of the six. */
  lemma SeparatorExactly(head: string, tail: string, word: string)
    requires Neat(head + tail) && StartsPlain(word)
    ensures StripSeparator(tail) == word <==> exists gap :: gap in GAPS && tail == gap + word
  {
    if gap :| gap in GAPS && tail == gap + word {
      var a, dash, b := GapParts(gap);
      GapComesOff(a, dash, b, word);
    }
    if StripSeparator(tail) == word {
      var gap := SeparatorIs(head, tail);
      assert tail == gap + word;
    }
  }

  lemma GapIs(a: string, b: string)
    requires (a == "" || a == " ") && (b == "" || b == " ")
    ensures a + "-" + b in DASHES && a + "-" + b in GAPS && a in GAPS
  {
    assert "" + "-" + "" == "-" && "" + "-" + " " == "- ";
    assert " " + "-" + "" == " -" && " " + "-" + " " == " - ";
  }

  lemma SeparatorIs(head: string, tail: string) returns (gap: string)
    requires Neat(head + tail)
    ensures gap in GAPS && tail == gap + StripSeparator(tail)
  {
    hide IsSpace, DropSpaces, Blank, Neat, StripSeparator;
    var t := DropSpaces(tail);
    DropSpacesSplits(tail);
    StripSeparatorOf(tail);
    var a := tail[..Lead(tail)];
    assert head + tail == head + a + t;
    BlankInNeat(head, a, t);
    GapIs(a, "");
    gap := a;
    if t != "" && t[0] == '-' {
      hide GAPS, Lead;
      var b := AfterDash(head + a, t);
      GapIs(a, b);
      LeftAssociate(a, b, DropSpaces(t[1..]));
      gap := a + "-" + b;
    }
  }

  lemma AfterDash(before: string, t: string) returns (b: string)
    requires Neat(before + t) && t != "" && t[0] == '-'
    ensures (b == "" || b == " ") && t == "-" + (b + DropSpaces(t[1..]))
  {
    hide IsSpace, DropSpaces, Blank, Neat;
    var v := t[1..];
    DropSpacesSplits(v);
    b := v[..Lead(v)];
    Uncons(t);
    assert before + t == (before + "-") + b + DropSpaces(v);
    BlankInNeat(before + "-", b, DropSpaces(v));
  }

  lemma WithTailIs(tail: string, word: string)
    ensures WithTail(PF, tail) == (if word == "" then PF else PF + " - " + word) <==> StripSeparator(tail) == word
  {
    var rest := StripSeparator(tail);
    if rest != "" && word != "" {
      AfterHead(PF, " - ", rest);
      AfterHead(PF, " - ", word);
      assert (" - " + rest)[3..] == rest && (" - " + word)[3..] == word;
    }
  }

  lemma PartialIsNoCode(tail: string)
    ensures PF <= WithTail(PF, tail) && Resolve(WithTail(PF, tail)) == WithTail(PF, tail)
  {
    hide StripSeparator, Resolve;
    var r := WithTail(PF, tail);
    assert r[0] == PF[0] && r[1] == PF[1];
    NotACode(r);
  }

  /** A long form reaches `word`'s spelling exactly from its six separators. */
  lemma LongFormsReach(head: string, tail: string, word: string)
    requires (head == PF || head == PE) && Neat(head + tail) && StartsPlain(word)
    ensures Resolve(Reshape(head + tail)) == (if word == "" then PF else PF + " - " + word)
       <==> LongForm(head + tail, word)
    ensures PF <= Resolve(Reshape(head + tail))
  {
    hide Neat, StripSeparator, Reshape, Resolve, StartsPlain;
    ReshapeLong(head, tail);
    PartialIsNoCode(tail);
    WithTailIs(tail, word);
    hide WithTail, LongForm;
    SeparatorExactly(head, tail, word);
    OnlyOwnHead(head, tail, word);
  }

  /** No text starts with both heads. */
  lemma HeadsDiffer(head: string, tail: string, other: string, rest: string)
    requires (head == PF && other == PE) || (head == PE && other == PF)
    ensures head + tail != other + rest
  {
    assert PF[10] != PE[10];
    assert (head + tail)[10] == head[10] && (other + rest)[10] == other[10];
  }

  lemma OnlyOwnHead(head: string, tail: string, word: string)
    requires head == PF || head == PE
    ensures LongForm(head + tail, word) <==> exists gap :: gap in GAPS && tail == gap + word
  {
    var t := head + tail;
    HeadOfJoin(head, tail);
    var other := if head == PF then PE else PF;
    forall gap | gap in GAPS ensures t != other + (gap + word) {
      HeadsDiffer(head, tail, other, gap + word);
    }
    forall gap | gap in GAPS && t == head + (gap + word) ensures tail == gap + word {
      HeadOfJoin(head, gap + word);
    }
  }

  // ---------------------------------------------------------------- short codes, both ways

  /** A text without a dash is only reached from itself. */
  lemma {:induction false} TightenPlain(t: string, k: string)
    requires '-' !in k
    ensures TightenDashes(t) == k <==> t == k
  {
    if t == "" {
    } else {
      var u := DropSpaces(t);
      if u != "" && u[0] == '-' {
        assert TightenDashes(t)[0] == '-';
        assert u[0] in t;
      } else if k != "" {
        TightenPlain(t[1..], k[1..]);
        Uncons(t);
        Uncons(k);
        assert TightenDashes(t) == [t[0]] + TightenDashes(t[1..]);
        assert TightenDashes(t)[1..] == TightenDashes(t[1..]);
      }
    }
  }

  /** A dash with these blanks around it, and then `b`. */
  function Dashed(x: string, y: string, b: string): string { x + ("-" + (y + b)) }

  /** Blanks around one dash are all that tightening takes away. */
  lemma {:induction false} TightenDash(t: string, a: string, b: string) returns (x: string, y: string)
    requires '-' !in a && '-' !in b && TightenDashes(t) == a + ("-" + b)
    ensures Blank(x) && Blank(y) && t == a + Dashed(x, y, b)
  {
    hide IsSpace, DropSpaces, Blank, Dashed;
    if a == "" {
      assert a + ("-" + b) == "-" + b;
      x, y := TightenFirstDash(t, b);
      assert a + Dashed(x, y, b) == Dashed(x, y, b);
    } else {
      FirstOff(a, "-" + b);
      LetterStays(t);
      hide TightenDashes;
      x, y := TightenDash(t[1..], a[1..], b);
      Uncons(t);
      FirstOff(a, Dashed(x, y, b));
    }
  }

  lemma FirstOff(a: string, rest: string)
    requires a != ""
    ensures (a + rest)[0] == a[0] && (a + rest)[1..] == a[1..] + rest
    ensures a + rest == [a[0]] + (a[1..] + rest)
    ensures a[0] in a && forall c | c in a[1..] :: c in a
  {}

  lemma LetterStays(t: string)
    requires TightenDashes(t) != "" && TightenDashes(t)[0] != '-'
    ensures t != "" && t[0] == TightenDashes(t)[0] && TightenDashes(t[1..]) == TightenDashes(t)[1..]
  {
    hide DropSpaces;
  }

  lemma DashComesFirst(t: string)
    requires TightenDashes(t) != "" && TightenDashes(t)[0] == '-'
    ensures var u := DropSpaces(t);
      u != "" && u[0] == '-' && TightenDashes(t) == "-" + TightenDashes(DropSpaces(u[1..]))
  {
    DashIsNotBlank();
    hide IsSpace;
  }

  lemma TightenFirstDash(t: string, b: string) returns (x: string, y: string)
    requires '-' !in b && TightenDashes(t) == "-" + b
    ensures Blank(x) && Blank(y) && t == Dashed(x, y, b)
  {
    DashIsNotBlank();
    hide IsSpace, Blank;
    var u := DropSpaces(t);
    DashComesFirst(t);
    hide DropSpaces, TightenDashes;
    var v := u[1..];
    var rest := DropSpaces(v);
    SameAfterDash(TightenDashes(rest), b);
    TightenPlain(rest, b);
    DropSpacesSplits(t);
    DropSpacesSplits(v);
    x, y := t[..Lead(t)], v[..Lead(v)];
    Uncons(u);
  }

  lemma SameAfterDash(a: string, b: string)
    requires "-" + a == "-" + b
    ensures a == b
  {
    assert ("-" + a)[1..] == a && ("-" + b)[1..] == b;
  }

  lemma DashIsNotBlank()
    ensures !IsSpace('-') && IsSpace(' ')
  {}

  lemma {:induction false} TightenCode(a: string, x: string, y: string, b: string)
    requires (a == "" || WordLike(a)) && '-' !in a && '-' !in b && StartsPlain(b) && Blank(x) && Blank(y)
    ensures TightenDashes(a + Dashed(x, y, b)) == a + ("-" + b)
  {
    var rest := Dashed(x, y, b);
    DashIsNotBlank();
    hide IsSpace, Blank;
    if a == "" {
      assert a + rest == rest && a + ("-" + b) == "-" + b;
      DashedTightens(x, y, b);
    } else {
      FirstOff(a, rest);
      FirstOff(a, "-" + b);
      hide Dashed;
      TightenCode(a[1..], x, y, b);
      LetterIsKept(a + rest);
    }
  }

  lemma LetterIsKept(t: string)
    requires t != "" && !IsSpace(t[0]) && t[0] != '-'
    ensures TightenDashes(t) == [t[0]] + TightenDashes(t[1..])
  {
    hide IsSpace;
    assert DropSpaces(t) == t;
  }

  lemma DashedTightens(x: string, y: string, b: string)
    requires '-' !in b && StartsPlain(b) && Blank(x) && Blank(y)
    ensures TightenDashes(Dashed(x, y, b)) == "-" + b
  {
    DashIsNotBlank();
    hide IsSpace, Blank;
    var u := "-" + (y + b);
    BlanksComeOff(x, u);
    BlanksComeOff(y, b);
    assert u[0] == '-' && u[1..] == y + b;
    hide StartsPlain, Dashed;
    DashGoesFirst(x + u);
    TightenPlain(b, b);
  }

  lemma DashGoesFirst(t: string)
    requires t != "" && DropSpaces(t) != "" && DropSpaces(t)[0] == '-'
    ensures TightenDashes(t) == "-" + TightenDashes(DropSpaces(DropSpaces(t)[1..]))
  {
    hide DropSpaces;
  }

  ghost predicate Letters(w: string) { w != "" && forall i :: 0 <= i < |w| ==> 'A' <= w[i] <= 'Z' }

  /** The dashed short code for `word` is reached exactly from its four dashes. */
  lemma ShortCodeExactly(t: string, word: string)
    requires Neat(t) && Letters(word)
    ensures TightenDashes(t) == "PF" + ("-" + word) <==> HasForm(t, "PF", DASHES, word)
  {
    hide Neat, TightenDashes, Letters;
    if TightenDashes(t) == "PF" + ("-" + word) {
      ShortCodeHasForm(t, word);
    }
    if gap :| gap in DASHES && t == "PF" + (gap + word) {
      FormIsShortCode(gap, word);
    }
  }

  lemma NoDashes(word: string)
    requires Letters(word)
    ensures '-' !in word && StartsPlain(word)
  {}

  lemma ShortCodeHasForm(t: string, word: string)
    requires Neat(t) && Letters(word) && TightenDashes(t) == "PF" + ("-" + word)
    ensures HasForm(t, "PF", DASHES, word)
  {
    hide Neat, TightenDashes, Letters, Blank;
    NoDashes(word);
    var x, y := TightenDash(t, "PF", word);
    assert t == "PF" + x + ("-" + (y + word));
    BlankInNeat("PF", x, "-" + (y + word));
    assert t == ("PF" + x + "-") + y + word;
    BlankInNeat("PF" + x + "-", y, word);
    GapIs(x, y);
    assert t == "PF" + ((x + "-" + y) + word);
  }

  lemma DashParts(gap: string, word: string) returns (x: string, y: string)
    requires gap in DASHES
    ensures Blank(x) && Blank(y) && gap + word == Dashed(x, y, word)
  {
    x := if gap == " -" || gap == " - " then " " else "";
    y := if gap == "- " || gap == " - " then " " else "";
    assert gap == x + ("-" + y);
  }

  lemma FormIsShortCode(gap: string, word: string)
    requires gap in DASHES && Letters(word)
    ensures TightenDashes("PF" + (gap + word)) == "PF" + ("-" + word)
  {
    var x, y := DashParts(gap, word);
    NoDashes(word);
    Capitals("PF");
    hide TightenDashes, WordLike, Letters, Blank, Dashed, StartsPlain;
    TightenCode("PF", x, y, word);
  }

  /** What every other tidied text resolves to. */
  lemma OthersReach(t: string)
    requires Neat(t) && !(PF <= t) && !(PE <= t)
    ensures Reshape(t) == t
    ensures Resolve(t) == PF <==> t == "PF"
    ensures Resolve(t) == PF_CANCELLED <==> t == "PFC" || HasForm(t, "PF", DASHES, "CANCELLED")
    ensures Resolve(t) == PF_EXPIRED <==> HasForm(t, "PF", DASHES, "EXPIRED")
    ensures Resolve(t) == "REJECTED" <==> t == "REJECTED" || t == "RJ"
    ensures Resolve(t) == t || FullName(Resolve(t))
  {
    hide HasForm, TightenDashes, Neat, Letters;
    TightenPlain(t, "PF");
    TightenPlain(t, "PFC");
    TightenPlain(t, "RJ");
    TheWords();
    ShortCodeExactly(t, "CANCELLED");
    ShortCodeExactly(t, "EXPIRED");
    OnlyFullNamesChange(t);
    TargetsDiffer();
    NotACode("REJECTED");
    hide Reshape;
  }

  lemma TheWords()
    ensures Letters("CANCELLED") && Letters("EXPIRED")
    ensures "PF" + ("-" + "CANCELLED") == "PF-CANCELLED" && "PF" + ("-" + "EXPIRED") == "PF-EXPIRED"
    ensures StartsPlain("") && StartsPlain("CANCELLED") && StartsPlain("EXPIRED")
  {}

  lemma TargetsDiffer()
    ensures |PF| == 16 && |PF_CANCELLED| == 28 && |PF_EXPIRED| == 26 && |"REJECTED"| == 8
  {}

  /** A documented status that is not one of the targets of a code or a long form. */
  ghost predicate PlainStatus(d: string) {
    d in WORKING + FILLED + CANCELLED + REJECTED && !FullName(d)
  }

  lemma PlainStatusesStay(d: string)
    requires PlainStatus(d)
    ensures !(PF <= d) && !(PE <= d) && Resolve(d) == d
  {
    hide PlainStatus;
    NotPartial(d);
    assert PF[0] == PE[0] == 'P' && PF[1] == PE[1] == 'A';
    if d == "O-PENDING" {
      TightensToLong(d);
    } else {
      NotACode(d);
    }
  }

  /** Letters that no short code and no long form starts with. */
  ghost predicate PlainStart(d: string) {
    && |d| >= 4 && (d[0] != 'P' || d[1] != 'A') && d[1] != 'F' && d[1] != 'J'
    && 'A' <= d[0] <= 'Z' && (d == "O-PENDING" || 'A' <= d[1] <= 'Z')
  }

  lemma NotPartial(d: string)
    requires PlainStatus(d)
    ensures PlainStart(d)
  {
    if d in WORKING {
      WorkingStarts(d);
    } else if d in FILLED {
      FilledStarts(d);
    }
  }

  lemma WorkingStarts(d: string)
    requires d in WORKING && d != PF
    ensures PlainStart(d)
  {}

  lemma FilledStarts(d: string)
    requires d in FILLED
    ensures PlainStart(d)
  {}

  /**
   Which raw statuses reach a documented one, all of them: a partial final status from either verb
   with any of six separators or from its short code, REJECTED also from RJ, and every other status
   only from its own words. A dash inside those is never repaired.
  */
  lemma DocumentedExactlyFrom(up: Casing, raw: string, d: string)
    requires Proper(up) && d in WORKING + FILLED + PARTIAL_FINAL + CANCELLED + REJECTED
    ensures NormaliseWith(up, Some(raw)) == d <==> SpeltAs(Tidied(up, raw), d)
  {
    TidiedIsTidy(up, raw);
    var t := Tidied(up, raw);
    SpacedIsNeat(t);
    assert FullName(d) || PlainStatus(d) by { DocumentedSplit(d); }
    hide PlainStatus, FullName, Neat;
    if PF <= t || PE <= t {
      LongReaches(t, d);
    } else {
      OtherReaches(t, d);
    }
  }

  lemma DocumentedSplit(d: string)
    requires d in WORKING + FILLED + PARTIAL_FINAL + CANCELLED + REJECTED
    ensures FullName(d) || PlainStatus(d)
  {}

  lemma LongReaches(t: string, d: string)
    requires Neat(t) && (PF <= t || PE <= t)
    requires FullName(d) || PlainStatus(d)
    ensures Resolve(Reshape(t)) == d <==> SpeltAs(t, d)
  {
    hide LongForm, HasForm, Resolve, Reshape, Neat, StartsPlain, SpeltAs, Letters, PlainStatus;
    var head := if PF <= t then PF else PE;
    var tail := t[|head|..];
    assert t == head + tail;
    HeadLetters(t);
    TheWords();
    LongFormsReach(head, tail, "");
    LongFormsReach(head, tail, "CANCELLED");
    LongFormsReach(head, tail, "EXPIRED");
    NotShort(t);
    TargetsDiffer();
    if !FullName(d) {
      PlainStatusesStay(d);
      NamesApart(d, t);
    } else {
      LongSpelling(t, d);
    }
  }

  lemma HeadLetters(t: string)
    requires PF <= t || PE <= t
    ensures |t| >= 16 && t[0] == 'P' && t[1] == 'A'
  {
    assert PF[0] == PE[0] == 'P' && PF[1] == PE[1] == 'A';
  }

  lemma NamesApart(d: string, t: string)
    requires !FullName(d) && !(PF <= d) && !(PE <= d) && (PF <= t || PE <= t)
    ensures SpeltAs(t, d) <==> false
  {}

  lemma LongSpelling(t: string, d: string)
    requires FullName(d) && |t| >= 16
    requires !HasForm(t, "PF", DASHES, "CANCELLED") && !HasForm(t, "PF", DASHES, "EXPIRED")
    ensures SpeltAs(t, d) <==>
      (d == PF && LongForm(t, "")) || (d == PF_CANCELLED && LongForm(t, "CANCELLED"))
      || (d == PF_EXPIRED && LongForm(t, "EXPIRED"))
  {
    hide LongForm, HasForm;
    TargetsDiffer();
  }

  lemma NotShort(t: string)
    requires |t| >= 2 && t[1] == 'A'
    ensures t != "PF" && t != "PFC" && t != "RJ"
    ensures !HasForm(t, "PF", DASHES, "CANCELLED") && !HasForm(t, "PF", DASHES, "EXPIRED")
  {}

  lemma OtherReaches(t: string, d: string)
    requires Neat(t) && !(PF <= t) && !(PE <= t)
    requires FullName(d) || PlainStatus(d)
    ensures Resolve(Reshape(t)) == d <==> SpeltAs(t, d)
  {
    hide LongForm, HasForm, Resolve, Reshape, Neat, PlainStatus;
    OthersReach(t);
    NotLong(t);
    TargetsDiffer();
    if !FullName(d) {
      PlainStatusesStay(d);
    }
  }

  lemma NotLong(t: string)
    requires !(PF <= t) && !(PE <= t)
    ensures forall word :: !LongForm(t, word)
  {
    forall word ensures !LongForm(t, word) {
      forall gap | gap in GAPS ensures t != PF + (gap + word) && t != PE + (gap + word) {
        HeadOfJoin(PF, gap + word);
        HeadOfJoin(PE, gap + word);
      }
    }
  }

  /** `O - PENDING` is not the documented `O-PENDING`: it stays unrecognised, and so open. */
  lemma SpacedDashIsUnrecognised()
    ensures NormaliseStatus(Some("o - pending")) == "O - PENDING"
    ensures Classify("O - PENDING", None, None, {}) == Unrecognised
    ensures Classify("O-PENDING", None, None, {}) == Working
  {
    var s := "O - PENDING";
    SpacedDashIsTidied();
    NotALongForm(s);
    TightensToLong(s);
    SpacedDashIsInNoTable();
    KnownDash();
  }

  lemma {:induction false} UpperOfAscii(s: string)
    ensures |Upper(ASCII, s)| == |s| && forall i :: 0 <= i < |s| ==> Upper(ASCII, s)[i] == AsciiUpper(s[i])
  {
    if s != "" {
      UpperOfAscii(s[1..]);
    }
  }

  lemma AsciiIsProper()
    ensures Proper(ASCII)
  {}

  lemma SpacedDashIsTidied()
    ensures Tidied(ASCII, "o - pending") == "O - PENDING"
  {
    SpacedDashIsLoud();
    hide LoudAll, Collapse, SingleSpaced;
    var s := "O" + " " + ("-" + " " + "PENDING");
    assert s == "O - PENDING";
    Capitals("PENDING");
    Capitals("O");
    DashIsAWord(ASCII);
    WordAlone("PENDING");
    ThreeWords("O", "-", "PENDING");
  }

  lemma SpacedDashIsLoud()
    ensures LoudAll(ASCII, "o - pending") == "O - PENDING"
  {
    UpperOfAscii("o - pending");
  }

  lemma ThreeWords(a: string, b: string, c: string)
    requires WordLike(a) && WordLike(b) && SingleSpaced(c) && c != ""
    ensures Collapse(a + " " + (b + " " + c)) == a + " " + (b + " " + c)
  {
    WordsJoin(b, c);
    WordsJoin(a, b + " " + c);
    CollapseKeeps(a + " " + (b + " " + c));
  }

  lemma SpacedDashIsInNoTable()
    ensures Classify("O - PENDING", None, None, {}) == Unrecognised
  {
    var s := "O - PENDING";
    assert s[1] == ' ' && s[2] == '-';
    assert |s| == 11;
  }

  lemma KnownDash()
    ensures Classify("O-PENDING", None, None, {}) == Working
  {
    assert "O-PENDING"[1] == '-';
  }

  lemma TightensToLong(s: string)
    requires |s| >= 2 && s[0] == 'O'
    ensures Resolve(s) == s
  {
    assert DropSpaces(s) == s;
    assert TightenDashes(s)[0] == 'O';
    CodesStartWithPR(TightenDashes(s));
  }

  lemma CodesStartWithPR(key: string)
    requires key != "" && key[0] != 'P' && key[0] != 'R'
    ensures Alias(key) == None
  {}

  // ---------------------------------------------------------------- states and quantities

  /** `classify`: the quantities cross-check the (normalised) status. */
  function Classify(status: string, traded: Option<real>, requested: Option<real>,
                    extraTerminal: set<string>): OrderState
  {
    var hasFill := traded.Some? && traded.value > 0.0;
    if status in FILLED then Filled
    else if traded.Some? && requested.Some? && requested.value > 0.0 && traded.value >= requested.value
      then Filled
    else if status in PARTIAL_FINAL then PartialDone
    else if status in CANCELLED || status in REJECTED || status in extraTerminal then
      if hasFill then PartialDone else if status in REJECTED then Rejected else Cancelled
    else if status in WORKING then Working
    else Unrecognised
  }

  /** One order as the broker reported it; the fields the share arithmetic reads. */
  datatype OrderSnapshot = OrderSnapshot(
    orderId: string, status: string, state: OrderState, side: Option<Side>, symbol: string,
    requested: Option<real>, traded: Option<real>)
  {
    function RemainingQty(): Option<real> {
      if requested.None? then None
      else
        var left := requested.value - (if traded.Some? then traded.value else 0.0);
        Some(if left > 0.0 then left else 0.0)
    }

    function FilledQty(): Option<real> {
      if state == PartialDone && (traded.None? || traded.value == 0.0) then None
      else if traded.Some? then
        if requested.Some? && requested.value < traded.value then requested else traded
      else if state == Filled then requested
      else if state == Cancelled || state == Rejected then Some(0.0)
      else None
    }
  }

  datatype Side = Buy | Sell

  /** A row of the order book after its keys have been looked up. */
  datatype Row = Row(orderId: string, status: Option<string>, side: Option<Side>, symbol: string,
                     requested: Option<real>, traded: Option<real>)

  /** `parse_order_row`: nothing without an order id. */
  function ParseOrderRow(row: Row, extraTerminal: set<string>): Option<OrderSnapshot> {
    if row.orderId == "" then None
    else
      var status := NormaliseStatus(row.status);
      Some(OrderSnapshot(row.orderId, status,
                         Classify(status, row.traded, row.requested, extraTerminal),
                         row.side, row.symbol, row.requested, row.traded))
  }

  /** The statuses after which nothing more can fill. */
  ghost predicate FinalStatus(status: string, extraTerminal: set<string>) {
    status in FILLED || status in PARTIAL_FINAL || status in CANCELLED || status in REJECTED ||
    status in extraTerminal
  }

  /** An order counts as still open exactly when no table calls it final and it is not all traded. */
  lemma OpenExactlyWhen(status: string, traded: Option<real>, requested: Option<real>,
                        extraTerminal: set<string>)
    ensures IsOpen(Classify(status, traded, requested, extraTerminal)) <==>
            !FinalStatus(status, extraTerminal) &&
            !(traded.Some? && requested.Some? && traded.value >= requested.value > 0.0)
  {
    var r := Classify(status, traded, requested, extraTerminal);
    if status in FILLED || status in PARTIAL_FINAL || status in CANCELLED || status in REJECTED {
      assert FinalStatus(status, extraTerminal);
      assert !IsOpen(r);
    }
  }

  /**
   What puts an order in each state, from the evidence alone: all of it traded or a filled status makes it
   filled, whatever else is said; a final status with something filled (or one that says so) is partial;
   with nothing filled it is rejected or cancelled; only then do the working statuses count.
  */
  lemma StatesExactlyWhen(status: string, traded: Option<real>, requested: Option<real>,
                          extraTerminal: set<string>)
    ensures var state := Classify(status, traded, requested, extraTerminal);
      var whole := status in FILLED || (traded.Some? && requested.Some? && traded.value >= requested.value > 0.0);
      var some := traded.Some? && traded.value > 0.0;
      var final := FinalStatus(status, extraTerminal);
      && (state == Filled <==> whole)
      && (state == PartialDone <==> !whole && final && (some || status in PARTIAL_FINAL))
      && (state == Rejected <==> !whole && status in REJECTED && !some && status !in PARTIAL_FINAL)
      && (state == Cancelled <==>
            !whole && final && !some && status !in REJECTED && status !in PARTIAL_FINAL)
      && (state == Working <==> !whole && !final && status in WORKING)
      && (state == Unrecognised <==> !whole && !final && status !in WORKING)
  {
    var r := Classify(status, traded, requested, extraTerminal);
    hide WORKING, FILLED, PARTIAL_FINAL, CANCELLED, REJECTED;
  }

  ghost predicate Lists(table: set<string>, words: seq<string>) {
    forall s :: s in table <==> s in words
  }

  /** The vocabulary the broker documents, word by word. */
  lemma Vocabulary()
    ensures Lists(WORKING, ["QUEUED", "O-PENDING", "SL-PENDING", "PROCESSING", "INITIATED", "MODIFIED", "PENDING",
                            "PARTIALLY FILLED", "OPEN", "TRIGGER PENDING", "CREATED", "RECEIVED"])
    ensures Lists(FILLED, ["SUCCESS", "COMPLETE", "COMPLETED", "EXECUTED", "TRADED", "FILLED"])
    ensures Lists(PARTIAL_FINAL, ["PARTIALLY FILLED - CANCELLED", "PARTIALLY FILLED - EXPIRED"])
    ensures Lists(CANCELLED, ["CANCELLED", "EXPIRED"])
    ensures Lists(REJECTED, ["FAILED", "ABORTED", "REJECTED"])
  {}

  /** How much has filled, from the report's own fields: the traded quantity, never more than requested;
      without one, only a final status can say. A partial one that reports nothing says nothing. */
  lemma FillIsKnownExactlyWhen(s: OrderSnapshot, filled: real)
    ensures s.FilledQty() == Some(filled) <==>
      match s.traded
      case Some(traded) =>
        && (traded == 0.0 ==> s.state != PartialDone)
        && filled == (if s.requested.Some? && s.requested.value < traded then s.requested.value else traded)
      case None =>
        || (s.state == Filled && s.requested == Some(filled))
        || ((s.state == Cancelled || s.state == Rejected) && filled == 0.0)
  {}

  /** A status report of one order at one read. */
  datatype Report = Report(status: string, traded: real)

  /** Once everything requested has traded, no later report un-fills the order. */
  lemma FilledByQuantityStays(reports: seq<Report>, requested: real, i: nat, j: nat, extra: set<string>)
    requires i <= j < |reports| && requested > 0.0 && reports[i].traded >= requested
    requires forall k :: 0 <= k < |reports| - 1 ==> reports[k].traded <= reports[k + 1].traded
    decreases j - i
    ensures Classify(reports[j].status, Some(reports[j].traded), Some(requested), extra) == Filled
  {
    if i < j {
      assert reports[i].traded <= reports[i + 1].traded;
      FilledByQuantityStays(reports, requested, i + 1, j, extra);
    }
  }

  /** Snapshots of one order, oldest first: classified as the parser does, and with a traded quantity
      that, wherever it is reported, has not fallen since. */
  ghost predicate History(snaps: seq<OrderSnapshot>, requested: real, extra: set<string>) {
    && (forall k :: 0 <= k < |snaps| ==>
          && snaps[k].requested == Some(requested)
          && snaps[k].state == Classify(snaps[k].status, snaps[k].traded, snaps[k].requested, extra)
          && (snaps[k].traded.Some? ==> snaps[k].traded.value >= 0.0))
    && (forall i, j :: 0 <= i < j < |snaps| && snaps[i].traded.Some? && snaps[j].traded.Some? ==>
          snaps[i].traded.value <= snaps[j].traded.value)
  }

  /**
   Over any history, a known fill falls back exactly when one of the two reports leaves the traded
   quantity out: a final status without it after something had filled, or an earlier "filled" without
   it that a later quantity contradicts.
  */
  lemma KnownFillFallsExactlyWhen(snaps: seq<OrderSnapshot>, requested: real, extra: set<string>, i: nat, j: nat)
    requires History(snaps, requested, extra) && requested >= 0.0 && i < j < |snaps|
    requires snaps[i].FilledQty().Some? && snaps[j].FilledQty().Some?
    ensures snaps[j].FilledQty().value < snaps[i].FilledQty().value <==>
      snaps[i].FilledQty().value > 0.0 &&
      (if snaps[j].traded.None? then snaps[j].state != Filled
       else snaps[i].traded.None? && snaps[j].traded.value < requested)
  {
    var a, b := snaps[i], snaps[j];
    hide Classify;
    assert a.traded.Some? && b.traded.Some? ==> a.traded.value <= b.traded.value;
  }

  /**
   While every report carries the traded quantity, what is left never grows, and once something has
   filled no later report says that nothing has, or that the fill is unknown.
  */
  lemma ReportedFillsStay(snaps: seq<OrderSnapshot>, requested: real, extra: set<string>, i: nat, j: nat)
    requires History(snaps, requested, extra) && i < j < |snaps|
    requires snaps[i].traded.Some? && snaps[j].traded.Some?
    ensures snaps[j].RemainingQty().value <= snaps[i].RemainingQty().value
    ensures snaps[i].traded.value > 0.0 ==>
      && snaps[j].state != Cancelled && snaps[j].state != Rejected
      && snaps[j].FilledQty().Some? && snaps[i].FilledQty().Some?
  {
    assert snaps[i].traded.value <= snaps[j].traded.value;
  }

  /**
   A known fill and the open remainder split the requested quantity, except for one report: a
   filled order whose row carries no traded quantity still reports all of it as remaining.
  */
  lemma FillAndRemainderSplitRequest(s: OrderSnapshot)
    requires s.requested.Some? && s.requested.value >= 0.0 && s.FilledQty().Some?
    ensures s.FilledQty().value + s.RemainingQty().value == s.requested.value <==>
            !(s.traded.None? && s.state == Filled && s.requested.value > 0.0)
    ensures (s.traded.Some? ==> s.traded.value >= 0.0) ==>
            0.0 <= s.FilledQty().value <= s.requested.value
  {}
}
