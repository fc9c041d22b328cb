/** The hostname normalisations of internal/dnsobservation/message.go and
    internal/nettarget/webhostname.go. A character stands for one code point. */
module Hostnames {
  import opened Basics
  import HttpsPath
  import WebPath

  /** The Unicode tables and the IP literal parser, known only as far as they matter. */
  datatype Tables = Tables(isSpace: char -> bool, toLower: char -> char, isIPLiteral: string -> bool) {
    ghost predicate Valid() {
      && (forall c :: '!' <= c <= '~' || c == '\U{7F}' ==> !isSpace(c))
      && isSpace(' ')
      && (forall c :: 'a' <= c <= 'z' || '0' <= c <= '9' || c == '.' || c == '-' ==> toLower(c) == c)
      && (forall c :: toLower(toLower(c)) == toLower(c))
      && (forall c :: isSpace(toLower(c)) <==> isSpace(c))
    }
  }

  // ---------- TrimSpace, ToLower, TrimSuffix ----------

  function TrimLeft(tables: Tables, s: string): (t: string)
    ensures |t| <= |s| && t == s[|s| - |t|..]
    ensures forall i :: 0 <= i < |s| - |t| ==> tables.isSpace(s[i])
    ensures t == "" || !tables.isSpace(t[0])
  {
    if s != "" && tables.isSpace(s[0]) then TrimLeft(tables, s[1..]) else s
  }

  function TrimRight(tables: Tables, s: string): (t: string)
    ensures |t| <= |s| && t == s[..|t|]
    ensures forall i :: |t| <= i < |s| ==> tables.isSpace(s[i])
    ensures t == "" || !tables.isSpace(t[|t| - 1])
  {
    if s != "" && tables.isSpace(s[|s| - 1]) then TrimRight(tables, s[..|s| - 1]) else s
  }

  function TrimSpace(tables: Tables, s: string): string {
    TrimRight(tables, TrimLeft(tables, s))
  }

  function ToLower(tables: Tables, s: string): (t: string)
    ensures |t| == |s| && forall i :: 0 <= i < |s| ==> t[i] == tables.toLower(s[i])
  {
    seq(|s|, i requires 0 <= i < |s| => tables.toLower(s[i]))
  }

  function TrimDot(s: string): string {
    if EndsWith(s, '.') then s[..|s| - 1] else s
  }

  /** Both normalisations compute this text before they test it. */
  function Normalized(tables: Tables, v: string): string {
    TrimDot(ToLower(tables, TrimSpace(tables, v)))
  }

  // ---------- The tests ----------

  function Labels(s: string): (labels: seq<string>)
    ensures labels != []
  {
    var dot := IndexOf(s, '.');
    if dot == |s| then [s] else [s[..dot]] + Labels(s[dot + 1..])
  }

  predicate Forbidden(c: char) { c in "/\\:@?#[]*" }

  /** dnsobservation.normalizeHostname: the lengths are those of section 2.3.4 of RFC 1035. */
  predicate DnsCheck(tables: Tables, h: string) {
    && h != "" && !tables.isIPLiteral(h)
    && (forall i :: 0 <= i < |h| ==> !Forbidden(h[i]) && !tables.isSpace(h[i]) && '!' <= h[i] <= '\U{7F}')
    && |h| + 1 <= 255
    && forall part :: part in Labels(h) ==> 1 <= |part| <= 63
  }

  predicate WebLabel(part: string) {
    && 1 <= |part| <= 63
    && part[0] != '-' && part[|part| - 1] != '-'
    && forall i :: 0 <= i < |part| ==> 'a' <= part[i] <= 'z' || '0' <= part[i] <= '9' || part[i] == '-'
  }

  /** nettarget.NormalizeWebHostname. */
  predicate WebCheck(tables: Tables, h: string) {
    && h != "" && |h| <= 253 && '.' in h && !tables.isIPLiteral(h)
    && (forall i :: 0 <= i < |h| ==> !Forbidden(h[i]) && !tables.isSpace(h[i]))
    && forall part :: part in Labels(h) ==> WebLabel(part)
  }

  // ---------- When normalising again changes nothing ----------

  lemma {:induction false} TrimLeftStops(tables: Tables, s: string)
    requires s == "" || !tables.isSpace(s[0])
    ensures TrimLeft(tables, s) == s
  {
  }

  lemma {:induction false} TrimRightStops(tables: Tables, s: string)
    requires s == "" || !tables.isSpace(s[|s| - 1])
    ensures TrimRight(tables, s) == s
  {
  }

  /** Trimming leaves no space at either end. */
  lemma TrimmedEnds(tables: Tables, s: string)
    ensures var t := TrimSpace(tables, s); t == "" || (!tables.isSpace(t[0]) && !tables.isSpace(t[|t| - 1]))
  {
    var left := TrimLeft(tables, s);
    var t := TrimRight(tables, left);
    assert t != "" ==> t[0] == left[0];
  }

  /** So a second trim does nothing. */
  lemma TrimSpaceTwice(tables: Tables, s: string)
    ensures TrimSpace(tables, TrimSpace(tables, s)) == TrimSpace(tables, s)
  {
    TrimmedEnds(tables, s);
    TrimLeftStops(tables, TrimSpace(tables, s));
    TrimRightStops(tables, TrimSpace(tables, s));
  }

  lemma LowerTwice(tables: Tables, c: char)
    requires tables.Valid()
    ensures tables.toLower(tables.toLower(c)) == tables.toLower(c)
    ensures tables.isSpace(tables.toLower(c)) <==> tables.isSpace(c)
  {
  }

  /** Lowering a part of a lowered text changes nothing. */
  lemma LoweredStaysLowered(tables: Tables, s: string, n: nat)
    requires tables.Valid() && n <= |s|
    ensures ToLower(tables, ToLower(tables, s)[..n]) == ToLower(tables, s)[..n]
  {
    var part := ToLower(tables, s)[..n];
    forall i | 0 <= i < n ensures ToLower(tables, part)[i] == part[i] {
      LowerTwice(tables, s[i]);
    }
  }

  lemma DotIsASuffix(s: string)
    ensures |TrimDot(s)| <= |s| && TrimDot(s) == s[..|TrimDot(s)|]
  {
  }

  lemma TextIsTrimmedAndLowered(tables: Tables, v: string)
    requires tables.Valid()
    ensures var t := Normalized(tables, v); ToLower(tables, t) == t && (t != "" ==> !tables.isSpace(t[0]))
  {
    var trimmed := TrimSpace(tables, v);
    var lowered := ToLower(tables, trimmed);
    var n := |TrimDot(lowered)|;
    TrimmedEnds(tables, v);
    DotIsASuffix(lowered);
    LoweredStaysLowered(tables, trimmed, n);
    if n > 0 {
      LowerTwice(tables, trimmed[0]);
    }
  }

  lemma FixpointOfTrimmedText(tables: Tables, t: string)
    requires ToLower(tables, t) == t && t != "" && !tables.isSpace(t[0])
    ensures Normalized(tables, t) == t <==> t[|t| - 1] != '.' && !tables.isSpace(t[|t| - 1])
  {
    TrimLeftStops(tables, t);
    if tables.isSpace(t[|t| - 1]) {
      assert |TrimSpace(tables, t)| < |t|;
      assert |Normalized(tables, t)| < |t|;
    } else {
      TrimRightStops(tables, t);
    }
  }

  /** Exactly the texts that normalise to themselves again: one trailing dot was all there was to
      take off. A second dot, or a space before the dot, is taken off only by a second pass. */
  lemma FixpointCondition(tables: Tables, v: string)
    requires tables.Valid()
    ensures var t := Normalized(tables, v);
      Normalized(tables, t) == t <==> t == "" || (t[|t| - 1] != '.' && !tables.isSpace(t[|t| - 1]))
  {
    var t := Normalized(tables, v);
    TextIsTrimmedAndLowered(tables, v);
    if t != "" {
      FixpointOfTrimmedText(tables, t);
    }
  }

  function JoinLabels(labels: seq<string>): string
    requires labels != []
  {
    if |labels| == 1 then labels[0] else labels[0] + "." + JoinLabels(labels[1..])
  }

  /** The labels are what stands between the dots. */
  lemma {:induction false} LabelsSplitAtDots(s: string)
    ensures JoinLabels(Labels(s)) == s
    ensures forall part :: part in Labels(s) ==> '.' !in part
  {
    var dot := IndexOf(s, '.');
    if dot < |s| {
      var rest := Labels(s[dot + 1..]);
      LabelsSplitAtDots(s[dot + 1..]);
      assert Labels(s) == [s[..dot]] + rest && Labels(s)[1..] == rest;
      assert s == s[..dot] + "." + s[dot + 1..];
    }
  }

  lemma {:induction false} LabelsUnfold(h: string)
    requires IndexOf(h, '.') < |h|
    ensures Labels(h) == [h[..IndexOf(h, '.')]] + Labels(h[IndexOf(h, '.') + 1..])
  {
  }

  lemma StillIn<T>(first: T, rest: seq<T>, x: T)
    requires x in rest
    ensures x in [first] + rest
  {
    var k :| 0 <= k < |rest| && rest[k] == x;
    assert ([first] + rest)[k + 1] == x;
  }

  lemma {:induction false} LabelsAfterDot(h: string, part: string)
    requires IndexOf(h, '.') < |h| && part in Labels(h[IndexOf(h, '.') + 1..])
    ensures part in Labels(h)
  {
    LabelsUnfold(h);
    StillIn(h[..IndexOf(h, '.')], Labels(h[IndexOf(h, '.') + 1..]), part);
  }

  lemma {:induction false} TrailingDotIsAnEmptyLabel(h: string)
    requires EndsWith(h, '.')
    ensures "" in Labels(h)
  {
    var rest := h[IndexOf(h, '.') + 1..];
    if rest == "" {
      assert Labels(rest)[0] == "";
    } else {
      TrailingDotIsAnEmptyLabel(rest);
    }
    LabelsAfterDot(h, "");
  }

  lemma TrailingDotIsRejected(tables: Tables, h: string)
    requires EndsWith(h, '.')
    ensures !DnsCheck(tables, h) && !WebCheck(tables, h)
  {
    TrailingDotIsAnEmptyLabel(h);
    assert !WebLabel("");
  }

  /** What the agreement theorems assume of hostnames holds of both normalisations. */
  lemma AcceptedNamesAreFixpoints(tables: Tables, v: string)
    requires tables.Valid()
    requires DnsCheck(tables, Normalized(tables, v)) || WebCheck(tables, Normalized(tables, v))
    ensures Normalized(tables, Normalized(tables, v)) == Normalized(tables, v)
  {
    FixpointCondition(tables, v);
    if EndsWith(Normalized(tables, v), '.') {
      TrailingDotIsRejected(tables, Normalized(tables, v));
    }
  }

  lemma DnsRulesAreValid(tables: Tables)
    requires tables.Valid()
    ensures HttpsPath.InputRules(
      v => Normalized(tables, v), h => DnsCheck(tables, h), v => TrimSpace(tables, v)).Valid()
  {
    forall v | DnsCheck(tables, Normalized(tables, v))
      ensures Normalized(tables, Normalized(tables, v)) == Normalized(tables, v)
    {
      AcceptedNamesAreFixpoints(tables, v);
    }
    forall v ensures TrimSpace(tables, TrimSpace(tables, v)) == TrimSpace(tables, v) {
      TrimSpaceTwice(tables, v);
    }
  }

  predicate Plain(tables: Tables, s: string) {
    forall i :: 0 <= i < |s| ==> tables.toLower(s[i]) == s[i] && !tables.isSpace(s[i])
  }

  lemma PlainWithDot(tables: Tables, s: string)
    requires tables.Valid() && Plain(tables, s)
    ensures Plain(tables, s + ".")
  {
  }

  lemma AcceptedIsPlain(tables: Tables, v: string)
    requires tables.Valid() && DnsCheck(tables, Normalized(tables, v))
    ensures Plain(tables, Normalized(tables, v))
  {
    var h := Normalized(tables, v);
    TextIsTrimmedAndLowered(tables, v);
    forall i | 0 <= i < |h| ensures tables.toLower(h[i]) == h[i] {
      assert ToLower(tables, h)[i] == h[i];
    }
  }

  /** A text without spaces or upper case loses only its dot. */
  lemma PlainTextLosesItsDot(tables: Tables, s: string)
    requires Plain(tables, s)
    ensures Normalized(tables, s) == TrimDot(s)
  {
    TrimLeftStops(tables, s);
    TrimRightStops(tables, s);
    assert ToLower(tables, s) == s;
  }

  /** A rejected name need not be a fixpoint. For every accepted name h, such as "a.b", the text
      "h.." is rejected as "h.", and that normalises to the accepted "h" the next time. */
  lemma RejectedNamesMove(tables: Tables, v: string)
    requires tables.Valid() && DnsCheck(tables, Normalized(tables, v))
    ensures var h := Normalized(tables, v);
      && Normalized(tables, h + "..") == h + "." && Normalized(tables, h + ".") == h
      && !DnsCheck(tables, h + ".") && !WebCheck(tables, h + ".")
  {
    var h := Normalized(tables, v);
    AcceptedIsPlain(tables, v);
    DotsMove(tables, h);
  }

  lemma DotsMove(tables: Tables, h: string)
    requires tables.Valid() && Plain(tables, h)
    ensures Normalized(tables, h + "..") == h + "." && Normalized(tables, h + ".") == h
    ensures !DnsCheck(tables, h + ".") && !WebCheck(tables, h + ".")
  {
    PlainWithDot(tables, h);
    PlainWithDot(tables, h + ".");
    assert h + "." + "." == h + "..";
    PlainTextLosesItsDot(tables, h + "..");
    PlainTextLosesItsDot(tables, h + ".");
    assert (h + "..")[..|h| + 1] == h + ".";
    assert (h + ".")[..|h|] == h;
    TrailingDotIsRejected(tables, h + ".");
  }

  /** Every name the Web paths accept is one that DNS Observations accept. */
  lemma WebNamesAreDnsNames(tables: Tables, h: string)
    requires tables.Valid() && WebCheck(tables, h)
    ensures DnsCheck(tables, h)
  {
    forall i | 0 <= i < |h| ensures '!' <= h[i] <= '\U{7F}' {
      if h[i] != '.' {
        CharacterIsInALabel(h, i);
      }
    }
  }

  lemma {:induction false} CharacterIsInALabel(h: string, i: nat)
    requires i < |h| && h[i] != '.'
    ensures exists part :: part in Labels(h) && h[i] in part
  {
    var dot := IndexOf(h, '.');
    if dot == |h| {
      assert Labels(h)[0] == h && h[i] in h;
    } else if i < dot {
      assert Labels(h)[0] == h[..dot] && h[..dot][i] == h[i] && h[i] in h[..dot];
    } else {
      var rest := h[dot + 1..];
      assert rest[i - dot - 1] == h[i];
      CharacterIsInALabel(rest, i - dot - 1);
      var part :| part in Labels(rest) && h[i] in part;
      LabelsAfterDot(h, part);
    }
  }
}
