/** The two display helpers of the video list: `formatDuration`, which
    renders a whole number of seconds as `M:SS` or `H:MM:SS`, and
    `getStatusBadge`, which picks the label and colour classes of a status. */
module VideoList {
  import opened Common
  import opened Registration

  // ---------------------------------------------------------------------
  // formatDuration
  // ---------------------------------------------------------------------

  /** `Math.floor(seconds / 3600)`, `Math.floor((seconds % 3600) / 60)` and
      `seconds % 60`, for a non-negative whole number of seconds. */
  datatype Parts = Parts(hours: nat, minutes: nat, secs: nat)

  function SplitSeconds(seconds: nat): (p: Parts)
    ensures p.hours * 3600 + p.minutes * 60 + p.secs == seconds
    ensures p.minutes < 60 && p.secs < 60
  {
    var hours := seconds / 3600;
    var rest := seconds % 3600;
    assert seconds == hours * 3600 + rest && 0 <= rest < 3600;
    assert rest == (rest / 60) * 60 + rest % 60 && 0 <= rest % 60 < 60;
    assert seconds == (hours * 60 + rest / 60) * 60 + rest % 60;
    assert seconds % 60 == rest % 60;
    Parts(hours, rest / 60, seconds % 60)
  }

  /** `n.toString().padStart(2, '0')` */
  function Pad2(n: nat): (s: string)
    ensures AllDigits(s)
    ensures n < 100 ==> |s| == 2
  {
    var digits := NatToString(n);
    if |digits| >= 2 then digits else ['0'] + digits
  }

  /** Reading the rendered duration back gives the number of seconds. */
  function FormatDuration(seconds: nat): (text: string)
    ensures ParseDuration(text) == Some(seconds)
  {
    var p := SplitSeconds(seconds);
    if p.hours > 0 then
      ParseHoursMinutesSeconds(p.hours, p.minutes, p.secs, seconds);
      NatToString(p.hours) + ":" + Pad2(p.minutes) + ":" + Pad2(p.secs)
    else
      ParseMinutesSeconds(p.minutes, p.secs, seconds);
      NatToString(p.minutes) + ":" + Pad2(p.secs)
  }

  /** The pieces of a string between its colons. */
  function Fields(s: string): (fs: seq<string>)
    ensures |fs| >= 1
    decreases |s|
  {
    if ':' !in s then [s]
    else
      var i := ColonIndex(s);
      [s[..i]] + Fields(s[i + 1..])
  }

  function ColonIndex(s: string): (i: nat)
    requires ':' in s
    ensures i < |s| && s[i] == ':' && ':' !in s[..i]
  {
    if s[0] == ':' then 0
    else
      assert ':' in s[1..] by {
        var k :| 0 <= k < |s| && s[k] == ':';
        assert s[1..][k - 1] == ':';
      }
      var j := ColonIndex(s[1..]);
      assert s[..j + 1] == [s[0]] + s[1..][..j];
      j + 1
  }

  /** Reads a rendered duration back: `M:SS` or `H:MM:SS`. */
  function ParseDuration(text: string): Option<nat> {
    ParseFields(Fields(text))
  }

  /** Two fields are minutes and seconds, three are hours, minutes and
      seconds; each must be a decimal number. */
  function ParseFields(fs: seq<string>): Option<nat> {
    if |fs| == 2 && ParseNat(fs[0]).Some? && ParseNat(fs[1]).Some? then
      Some(ParseNat(fs[0]).value * 60 + ParseNat(fs[1]).value)
    else if |fs| == 3 && ParseNat(fs[0]).Some? && ParseNat(fs[1]).Some? && ParseNat(fs[2]).Some? then
      Some(ParseNat(fs[0]).value * 3600 + ParseNat(fs[1]).value * 60 + ParseNat(fs[2]).value)
    else None
  }

  lemma DigitsHaveNoColon(s: string)
    requires AllDigits(s)
    ensures ':' !in s
  {
    forall k | 0 <= k < |s| ensures s[k] != ':' {
      assert IsDigit(s[k]);
    }
  }

  /** A digit string followed by a colon is one field. */
  lemma FieldsCons(a: string, rest: string)
    requires AllDigits(a)
    ensures Fields(a + ":" + rest) == [a] + Fields(rest)
  {
    var s := a + ":" + rest;
    DigitsHaveNoColon(a);
    assert s[|a|] == ':';
    assert forall k :: 0 <= k < |a| ==> s[k] == a[k];
    var i := ColonIndex(s);
    assert i == |a|;
    assert s[..|a|] == a;
    assert s[|a| + 1..] == rest;
  }

  lemma FieldsDigits(a: string)
    requires AllDigits(a)
    ensures Fields(a) == [a]
  {
    DigitsHaveNoColon(a);
  }

  lemma FieldsOfTwo(a: string, b: string)
    requires AllDigits(a) && AllDigits(b)
    ensures Fields(a + ":" + b) == [a, b]
  {
    FieldsCons(a, b);
    FieldsDigits(b);
  }

  lemma FieldsOfThree(a: string, b: string, c: string)
    requires AllDigits(a) && AllDigits(b) && AllDigits(c)
    ensures Fields(a + ":" + b + ":" + c) == [a, b, c]
  {
    FieldsOfTwo(b, c);
    FieldsCons(a, b + ":" + c);
    JoinAssoc(a, b, c);
    ConsTwo(a, b, c);
  }

  lemma JoinAssoc(a: string, b: string, c: string)
    ensures a + ":" + b + ":" + c == a + ":" + (b + ":" + c)
  {
  }

  lemma ConsTwo(a: string, b: string, c: string)
    ensures [a] + [b, c] == [a, b, c]
  {
  }

  lemma Pad2Value(n: nat)
    requires n < 100
    ensures ParseNat(Pad2(n)) == Some(n)
  {
    NatToStringValue(n);
    var digits := NatToString(n);
    if |digits| < 2 {
      var s := ['0'] + digits;
      assert s[..1] == ['0'];
      assert ['0'][..0] == [];
      assert DigitsValue(['0']) == 0;
      assert DigitsValue(s) == DigitsValue(digits);
    }
  }

  lemma ParseThreeFields(a: string, b: string, c: string, h: nat, m: nat, sec: nat, seconds: nat)
    requires ParseNat(a) == Some(h) && ParseNat(b) == Some(m) && ParseNat(c) == Some(sec)
    requires h * 3600 + m * 60 + sec == seconds
    ensures ParseFields([a, b, c]) == Some(seconds)
  {
  }

  lemma ParseTwoFields(a: string, b: string, m: nat, sec: nat, seconds: nat)
    requires ParseNat(a) == Some(m) && ParseNat(b) == Some(sec)
    requires m * 60 + sec == seconds
    ensures ParseFields([a, b]) == Some(seconds)
  {
  }

  lemma ParseHoursMinutesSeconds(h: nat, m: nat, sec: nat, seconds: nat)
    requires m < 60 && sec < 60 && h * 3600 + m * 60 + sec == seconds
    ensures ParseDuration(NatToString(h) + ":" + Pad2(m) + ":" + Pad2(sec)) == Some(seconds)
  {
    FieldsOfThree(NatToString(h), Pad2(m), Pad2(sec));
    NatToStringRoundTrip(h);
    Pad2Value(m);
    Pad2Value(sec);
    ParseThreeFields(NatToString(h), Pad2(m), Pad2(sec), h, m, sec, seconds);
  }

  lemma ParseMinutesSeconds(m: nat, sec: nat, seconds: nat)
    requires sec < 60 && m * 60 + sec == seconds
    ensures ParseDuration(NatToString(m) + ":" + Pad2(sec)) == Some(seconds)
  {
    FieldsOfTwo(NatToString(m), Pad2(sec));
    NatToStringRoundTrip(m);
    Pad2Value(sec);
    ParseTwoFields(NatToString(m), Pad2(sec), m, sec, seconds);
  }

  /** Under an hour the output is `M:SS` with unpadded minutes; from an
      hour on it is `H:MM:SS`; the seconds field always has two digits. */
  lemma FormatDurationShape(seconds: nat)
    ensures var p := SplitSeconds(seconds);
      var fs := Fields(FormatDuration(seconds));
      && (seconds < 3600 ==> fs == [NatToString(p.minutes), Pad2(p.secs)])
      && (seconds >= 3600 ==> fs == [NatToString(p.hours), Pad2(p.minutes), Pad2(p.secs)]
                              && |fs[1]| == 2 && fs[0][0] != '0')
      && |fs[|fs| - 1]| == 2
  {
    var p := SplitSeconds(seconds);
    assert p.hours > 0 <==> seconds >= 3600;
    var text := FormatDuration(seconds);
    if p.hours > 0 {
      assert text == NatToString(p.hours) + ":" + Pad2(p.minutes) + ":" + Pad2(p.secs);
      FieldsOfThree(NatToString(p.hours), Pad2(p.minutes), Pad2(p.secs));
      LeadingDigit(p.hours);
    } else {
      assert text == NatToString(p.minutes) + ":" + Pad2(p.secs);
      FieldsOfTwo(NatToString(p.minutes), Pad2(p.secs));
    }
  }

  /** A positive number is rendered without a leading zero. */
  lemma LeadingDigit(n: nat)
    requires n > 0
    ensures NatToString(n)[0] != '0'
  {
    if n < 10 {
      assert NatToString(n) == [DigitChar(n)];
    }
  }

  // ---------------------------------------------------------------------
  // getStatusBadge
  // ---------------------------------------------------------------------

  datatype BadgeStyle = BadgeStyle(labelText: string, color: string)

  const PendingStyle: BadgeStyle :=
    BadgeStyle("待機中", "bg-yellow-100 text-yellow-800 dark:bg-yellow-900 dark:text-yellow-200")
  const ProcessingStyle: BadgeStyle :=
    BadgeStyle("処理中", "bg-blue-100 text-blue-800 dark:bg-blue-900 dark:text-blue-200")
  const CompletedStyle: BadgeStyle :=
    BadgeStyle("完了", "bg-green-100 text-green-800 dark:bg-green-900 dark:text-green-200")
  const FailedStyle: BadgeStyle :=
    BadgeStyle("失敗", "bg-red-100 text-red-800 dark:bg-red-900 dark:text-red-200")

  /** The own properties of the `statusMap` literal. */
  function OwnEntry(status: string): Option<BadgeStyle> {
    if status == "pending" then Some(PendingStyle)
    else if status == "processing" then Some(ProcessingStyle)
    else if status == "completed" then Some(CompletedStyle)
    else if status == "failed" then Some(FailedStyle)
    else None
  }

  /** Names an object literal inherits from `Object.prototype`; indexing the
      map with one of them yields a function (or the prototype object). */
  const InheritedNames: set<string> := {
    "constructor", "hasOwnProperty", "isPrototypeOf", "propertyIsEnumerable",
    "toLocaleString", "toString", "valueOf", "__proto__",
    "__defineGetter__", "__defineSetter__", "__lookupGetter__", "__lookupSetter__"
  }

  /** What the badge shows: `None` where JavaScript would read `undefined`. */
  datatype ShownBadge = ShownBadge(labelText: Option<string>, color: Option<string>)

  function Shown(style: BadgeStyle): ShownBadge {
    ShownBadge(Some(style.labelText), Some(style.color))
  }

  /** As written: `statusMap[status] || statusMap.pending`. An inherited
      member is truthy, so the fallback is skipped and both `label` and
      `color` read as `undefined`. */
  function StatusBadgeAsWritten(status: string): (shown: ShownBadge)
    ensures status in InheritedNames ==> shown == ShownBadge(None, None)
    ensures status !in InheritedNames ==> shown == Shown(StatusBadge(status))
  {
    match OwnEntry(status)
    case Some(style) => Shown(style)
    case None => if status in InheritedNames then ShownBadge(None, None) else Shown(PendingStyle)
  }

  /** Corrected: only own entries are looked up; anything else falls back
      to the `pending` style. */
  function StatusBadge(status: string): (style: BadgeStyle)
    ensures status == "pending" ==> style == PendingStyle
    ensures status == "processing" ==> style == ProcessingStyle
    ensures status == "completed" ==> style == CompletedStyle
    ensures status == "failed" ==> style == FailedStyle
    ensures status !in {"pending", "processing", "completed", "failed"} ==> style == PendingStyle
  {
    match OwnEntry(status)
    case Some(style) => style
    case None => PendingStyle
  }

  /** Each of the four statuses has its own entry, and the four labels are
      pairwise different. */
  lemma StatusLabelsDistinct(a: VideoStatus, b: VideoStatus)
    ensures OwnEntry(StatusName(a)).Some?
    ensures a != b ==> StatusBadge(StatusName(a)).labelText != StatusBadge(StatusName(b)).labelText
  {
    assert "pending" != "processing" && "pending" != "completed" && "pending" != "failed";
    assert "processing" != "completed" && "processing" != "failed" && "completed" != "failed";
    assert PendingStyle.labelText != ProcessingStyle.labelText;
    assert PendingStyle.labelText[0] != CompletedStyle.labelText[0];
    assert PendingStyle.labelText[0] != FailedStyle.labelText[0];
    assert ProcessingStyle.labelText[0] != CompletedStyle.labelText[0];
    assert ProcessingStyle.labelText[0] != FailedStyle.labelText[0];
    assert CompletedStyle.labelText[0] != FailedStyle.labelText[0];
  }

  /** The status `toString` shows no label as written; the corrected lookup
      falls back to the `pending` label. */
  lemma InheritedNameLosesLabel()
    ensures StatusBadgeAsWritten("toString").labelText == None
    ensures StatusBadge("toString") == PendingStyle
  {
    assert "toString" in InheritedNames;
    assert OwnEntry("toString") == None by {
      assert "toString"[0] != "pending"[0];
      assert "toString"[0] != "processing"[0];
      assert "toString"[0] != "completed"[0];
      assert "toString"[0] != "failed"[0];
    }
  }
}
