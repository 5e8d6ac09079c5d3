/** The format machine vprintfmt of software/dhrystone/dhry_printf.c on a 32-bit target.

    A format is a C string: its only NUL is its last character, so an index into the
    sequence is a read that does not pass the terminator. */
module Printf {
  import opened Arith
  import opened Numbers

  predicate CString(f: string) {
    f != "" && f[|f| - 1] == '\0' && forall i :: 0 <= i < |f| - 1 ==> f[i] != '\0'
  }

  type Text = s: string | forall i :: 0 <= i < |s| ==> s[i] != '\0'
  type Word = n: nat | n < WORD

  /** An argument as va_arg may read it: a word, and the string at that address. */
  datatype Arg = Arg(word: Word, text: Text)

  /** The variadic arguments, and what print_double emits for the k-th with a width and precision. */
  datatype Env = Env(args: nat -> Arg, double: (nat, int, int) -> string)

  function AsInt(w: Word): int { if w < WORD / 2 then w else w - WORD }

  // ---------------------------------------------------------------- flags

  datatype Flags = Flags(padc: char, width: int, precision: int)

  const NO_FLAGS := Flags(' ', -1, -1)

  predicate IsDigit(c: char) { '0' <= c <= '9' }

  /** The characters that do not end a conversion. */
  predicate IsFlag(c: char) { IsDigit(c) || c in "-*.#l" }

  /** The value of the digits from j on, after acc, and where they end. */
  function Number(f: string, j: nat, acc: nat): (r: (nat, nat))
    requires CString(f) && j < |f|
    ensures j <= r.1 < |f| && !IsDigit(f[r.1])
    ensures forall i :: j <= i < r.1 ==> IsDigit(f[i])
    decreases |f| - j
  {
    if IsDigit(f[j]) then Number(f, j + 1, acc * 10 + (f[j] as int - '0' as int)) else (acc, j)
  }

  /** process_precision: the first number is the width, later ones the precision. */
  function Precise(fl: Flags, n: int): Flags {
    if fl.width < 0 then fl.(width := n, precision := -1) else fl.(precision := n)
  }

  /** Where the switch stops, with the flags collected and the next argument. */
  datatype Stop = Stop(at: nat, flags: Flags, next: nat)

  /** A flag of one character. */
  function OneFlag(e: Env, c: char, fl: Flags, k: nat): (r: (Flags, nat))
    ensures k <= r.1
  {
    if c == '-' || c == '0' then (fl.(padc := c), k)
    else if c == '*' then (Precise(fl, AsInt(e.args(k).word)), k + 1)
    else if c == '.' && fl.width < 0 then (fl.(width := 0), k)
    else (fl, k)
  }

  function Scan(e: Env, f: string, j: nat, fl: Flags, k: nat): (r: Stop)
    requires CString(f) && j < |f|
    ensures j <= r.at < |f| && k <= r.next
    decreases |f| - j
  {
    var c := f[j];
    if IsDigit(c) && c != '0' then
      var (n, end) := Number(f, j, 0);
      Scan(e, f, end, Precise(fl, n), k)
    else if IsFlag(c) then
      var (fl', k') := OneFlag(e, c, fl, k);
      Scan(e, f, j + 1, fl', k')
    else Stop(j, fl, k)
  }

  /** The first character that is not a flag. */
  function End(f: string, j: nat): (r: nat)
    requires CString(f) && j < |f|
    ensures j <= r < |f| && !IsFlag(f[r])
    ensures forall i :: j <= i < r ==> IsFlag(f[i])
    decreases |f| - j
  {
    if IsFlag(f[j]) then End(f, j + 1) else j
  }

  /** The switch stops at the first character that is not a flag, whatever the arguments are. */
  lemma {:induction false} ScanStops(e: Env, f: string, j: nat, fl: Flags, k: nat)
    requires CString(f) && j < |f|
    ensures Scan(e, f, j, fl, k).at == End(f, j)
    decreases |f| - j
  {
    var c := f[j];
    if IsDigit(c) && c != '0' {
      var (n, end) := Number(f, j, 0);
      SkipFlags(f, j, end);
      ScanStops(e, f, end, Precise(fl, n), k);
    } else if IsFlag(c) {
      var (fl', k') := OneFlag(e, c, fl, k);
      ScanStops(e, f, j + 1, fl', k');
    }
  }

  lemma {:induction false} SkipFlags(f: string, j: nat, m: nat)
    requires CString(f) && j <= m < |f|
    requires forall i :: j <= i < m ==> IsFlag(f[i])
    ensures End(f, j) == End(f, m)
    decreases m - j
  {
  }

  // ---------------------------------------------------------------- conversions

  /** As much of a string as the precision admits. */
  function Shown(t: string, precision: int): (r: string)
    ensures r <= t && |r| == (if 0 <= precision < |t| then precision else |t|)
  {
    if 0 <= precision < |t| then t[..precision] else t
  }

  /** %s: padded with padc before, or with spaces after, to the width. */
  function StringText(t: string, fl: Flags): string {
    var s := Shown(t, fl.precision);
    if fl.padc == '-' then s + Fill(' ', fl.width - |s|) else Fill(fl.padc, fl.width - |s|) + s
  }

  function SignedText(v: int, fl: Flags): string {
    if v < 0 then "-" + Numeral(-v, 10, fl.width, fl.padc) else Numeral(v, 10, fl.width, fl.padc)
  }

  datatype Piece = Done(text: string, used: nat) | Bad

  function Convert(e: Env, c: char, fl: Flags, k: nat): Piece {
    var a := e.args(k);
    if c == 'c' then Done([(a.word % 256) as char], 1)
    else if c == 'f' then Done(e.double(k, fl.width, fl.precision), 1)
    else if c == 's' then Done(StringText(if a.word == 0 then "(null)" else a.text, fl), 1)
    else if c == 'd' then Done(SignedText(AsInt(a.word), fl), 1)
    else if c == 'u' then Done(Numeral(a.word, 10, fl.width, fl.padc), 1)
    else if c == 'o' then Done(Numeral(a.word, 8, fl.width, fl.padc), 1)
    else if c == 'p' then Done("0x" + Numeral(a.word, 16, fl.width, fl.padc), 1)
    else if c == 'x' then Done(Numeral(a.word, 16, fl.width, fl.padc), 1)
    else if c == '%' then Done("%", 0)
    else Bad
  }

  predicate Converts(c: char) { c in "cfsduopx%" }

  // ---------------------------------------------------------------- the format machine

  datatype Out = Out(text: string, next: nat) {
    function After(s: string): Out { Out(s + text, next) }
  }

  /** What one character or conversion prints, where the format goes on, and the next argument.
      After a conversion that fails it goes on right behind the '%', with the arguments '*' took gone. */
  datatype Item = Item(text: string, at: nat, next: nat)

  function ItemAt(e: Env, f: string, i: nat, k: nat): (r: Item)
    requires CString(f) && i < |f| - 1
    ensures i < r.at < |f| && k <= r.next
  {
    if f[i] != '%' then Item([f[i]], i + 1, k)
    else
      var st := Scan(e, f, i + 1, NO_FLAGS, k);
      match Convert(e, f[st.at], st.flags, st.next)
      case Bad => Item("%", i + 1, st.next)
      case Done(t, used) => Item(t, st.at + 1, st.next + used)
  }

  /** What the format prints from index i on, when the next argument is the k-th. */
  function Format(e: Env, f: string, i: nat, k: nat): Out
    requires CString(f) && i < |f|
    decreases |f| - i
  {
    if f[i] == '\0' then Out("", k)
    else
      var it := ItemAt(e, f, i, k);
      Format(e, f, it.at, it.next).After(it.text)
  }

  lemma Ends(e: Env, f: string, k: nat)
    requires CString(f)
    ensures Format(e, f, |f| - 1, k) == Out("", k)
  {
  }

  /** A '%' at i starts a conversion that completes. */
  predicate Completes(f: string, i: nat)
    requires CString(f) && i < |f| - 1
  {
    f[i] == '%' && Converts(f[End(f, i + 1)])
  }

  /** A format in which no conversion completes is printed character for character. */
  lemma {:induction false} Literal(e: Env, f: string, i: nat, k: nat)
    requires CString(f) && i < |f|
    requires forall m: nat :: i <= m < |f| - 1 ==> !Completes(f, m)
    ensures Format(e, f, i, k).text == f[i..|f| - 1]
    decreases |f| - i
  {
    hide ItemAt, Completes;
    if i < |f| - 1 {
      NotCompleted(e, f, i, k);
      Literal(e, f, i + 1, ItemAt(e, f, i, k).next);
      assert f[i..|f| - 1] == [f[i]] + f[i + 1..|f| - 1];
    }
  }

  lemma NotCompleted(e: Env, f: string, i: nat, k: nat)
    requires CString(f) && i < |f| - 1 && !Completes(f, i)
    ensures ItemAt(e, f, i, k).text == [f[i]] && ItemAt(e, f, i, k).at == i + 1
  {
    hide Scan;
    ScanStops(e, f, i + 1, NO_FLAGS, k);
  }

  // ---------------------------------------------------------------- concatenation

  /** f and g agree, n apart, from j to where a conversion that begins there ends. */
  ghost predicate SameConversion(f: string, g: string, n: nat, j: nat) {
    CString(f) && CString(g) && j < |g| && n + End(g, j) < |f|
    && forall m {:trigger g[m]} :: j <= m <= End(g, j) ==> f[n + m] == g[m]
  }

  lemma {:induction false} SameNumber(f: string, g: string, n: nat, j: nat, acc: nat)
    requires SameConversion(f, g, n, j)
    ensures Number(f, n + j, acc) == (Number(g, j, acc).0, n + Number(g, j, acc).1)
    decreases |g| - j
  {
    if IsDigit(g[j]) { SameNumber(f, g, n, j + 1, acc * 10 + (g[j] as int - '0' as int)); }
  }

  lemma SameLater(f: string, g: string, n: nat, j: nat, m: nat)
    requires SameConversion(f, g, n, j) && j <= m <= End(g, j) && End(g, m) == End(g, j)
    ensures SameConversion(f, g, n, m) && n + m < |f| && CString(f) && f[n + m] == g[m]
  {
  }

  lemma {:induction false} SameScan(e: Env, f: string, g: string, n: nat, j: nat, fl: Flags, k: nat)
    requires SameConversion(f, g, n, j)
    ensures var st := Scan(e, g, j, fl, k); Scan(e, f, n + j, fl, k) == Stop(n + st.at, st.flags, st.next)
    decreases |g| - j
  {
    hide OneFlag, Precise, Number, SameConversion;
    SameLater(f, g, n, j, j);
    var c := g[j];
    if IsDigit(c) && c != '0' {
      var (v, end) := Number(g, j, 0);
      SameNumber(f, g, n, j, 0);
      SkipFlags(g, j, end);
      SameLater(f, g, n, j, end);
      SameScan(e, f, g, n, end, Precise(fl, v), k);
    } else if IsFlag(c) {
      var (fl', k') := OneFlag(e, c, fl, k);
      SkipFlags(g, j, j + 1);
      SameLater(f, g, n, j, j + 1);
      SameScan(e, f, g, n, j + 1, fl', k');
    }
  }

  /** No '%' that is reached runs its flags into the end of the format. */
  predicate Closed(f: string, i: nat)
    requires CString(f) && i < |f|
    decreases |f| - i
  {
    if f[i] == '\0' then true
    else if f[i] != '%' then Closed(f, i + 1)
    else
      var j := End(f, i + 1);
      f[j] != '\0' && Closed(f, if Converts(f[j]) then j + 1 else i + 1)
  }

  /** g stands in f at n, and what is left of g from i on is closed or ends f. */
  ghost predicate Embeds(f: string, g: string, n: nat, i: nat) {
    CString(f) && CString(g) && i < |g| && n + |g| <= |f|
    && f[n..n + |g| - 1] == g[..|g| - 1]
    && (Closed(g, i) || n + |g| == |f|)
  }

  lemma SameItem(e: Env, f: string, g: string, n: nat, i: nat, k: nat)
    requires Embeds(f, g, n, i) && i < |g| - 1
    ensures var it := ItemAt(e, g, i, k);
      && ItemAt(e, f, n + i, k) == Item(it.text, n + it.at, it.next)
      && Embeds(f, g, n, it.at)
  {
    hide Scan, Convert, SameConversion;
    assert f[n + i] == f[n..n + |g| - 1][i] == g[..|g| - 1][i] == g[i];
    if g[i] == '%' {
      var st := Scan(e, g, i + 1, NO_FLAGS, k);
      ScanStops(e, g, i + 1, NO_FLAGS, k);
      InWindow(f, g, n, i + 1);
      SamePiece(e, f, g, n, i, k);
      ConvertsWhen(e, g[st.at], st.flags, st.next);
    }
  }

  lemma SamePiece(e: Env, f: string, g: string, n: nat, i: nat, k: nat)
    requires SameConversion(f, g, n, i + 1) && f[n + i] == g[i] == '%'
    ensures var it := ItemAt(e, g, i, k); ItemAt(e, f, n + i, k) == Item(it.text, n + it.at, it.next)
  {
    hide Scan, Convert;
    ScanStops(e, g, i + 1, NO_FLAGS, k);
    SameScan(e, f, g, n, i + 1, NO_FLAGS, k);
  }

  lemma InWindow(f: string, g: string, n: nat, j: nat)
    requires CString(f) && CString(g) && j < |g| && n + |g| <= |f|
    requires f[n..n + |g| - 1] == g[..|g| - 1]
    requires End(g, j) < |g| - 1 || n + |g| == |f|
    ensures SameConversion(f, g, n, j)
  {
  }

  lemma ConvertsWhen(e: Env, c: char, fl: Flags, k: nat)
    ensures Convert(e, c, fl, k).Bad? <==> !Converts(c)
  {
  }

  /** It prints there what it prints alone. */
  lemma {:induction false} Embedded(e: Env, f: string, g: string, n: nat, i: nat, k: nat)
    requires Embeds(f, g, n, i)
    ensures var r := Format(e, g, i, k);
      Format(e, f, n + i, k) == Format(e, f, n + |g| - 1, r.next).After(r.text)
    decreases |g| - i
  {
    hide ItemAt, Closed, Format;
    if i < |g| - 1 {
      SameItem(e, f, g, n, i, k);
      var it := ItemAt(e, g, i, k);
      Embedded(e, f, g, n, it.at, it.next);
      assert f[n + i] == f[n..n + |g| - 1][i] == g[i];
      FormatStep(e, f, n + i, k);
      FormatStep(e, g, i, k);
      var r := Format(e, g, it.at, it.next);
      AfterTwice(Format(e, f, n + |g| - 1, r.next), r.text, it.text);
    } else {
      Ends(e, g, k);
      AfterNothing(Format(e, f, n + i, k));
    }
  }

  lemma FormatStep(e: Env, f: string, i: nat, k: nat)
    requires CString(f) && i < |f| - 1
    ensures var it := ItemAt(e, f, i, k); Format(e, f, i, k) == Format(e, f, it.at, it.next).After(it.text)
  {
  }

  lemma AfterTwice(o: Out, s: string, t: string)
    ensures o.After(s).After(t) == o.After(t + s)
  {
    assert t + (s + o.text) == (t + s) + o.text;
  }

  lemma AfterNothing(o: Out)
    ensures o.After("") == o
  {
    assert "" + o.text == o.text;
  }

  /** Format by format: a closed format followed by another prints what the two print in turn, the
      second starting at the first argument that is left. */
  lemma Concatenation(e: Env, a: Text, b: Text, k: nat)
    requires Closed(a + "\0", 0)
    ensures var r := Format(e, a + "\0", 0, k);
      Format(e, a + b + "\0", 0, k) == Format(e, b + "\0", 0, r.next).After(r.text)
  {
    hide Closed, ItemAt;
    var f, g, h := a + b + "\0", a + "\0", b + "\0";
    assert f[..|a|] == a && g[..|a|] == a;
    Embedded(e, f, g, 0, 0, k);
    assert f[|a|..|a| + |b|] == b && h[..|b|] == b;
    var r := Format(e, g, 0, k);
    Embedded(e, f, h, |a|, 0, r.next);
    var o := Format(e, h, 0, r.next);
    assert f[|f| - 1] == '\0' && Format(e, f, |f| - 1, o.next) == Out("", o.next);
    assert o.text + "" == o.text;
  }

  /** And only a closed format does: any other swallows a '%' put after it. */
  lemma {:induction false} NotClosed(e: Env, a: Text, i: nat, k: nat)
    requires i <= |a| && !Closed(a + "\0", i)
    ensures Format(e, a + "%\0", i, k).text != Format(e, a + "\0", i, k).text + "%"
    decreases |a| - i
  {
    hide ItemAt, Closed;
    var f, g := a + "%\0", a + "\0";
    OpenEnds(a, i);
    if g[i] == '%' && g[End(g, i + 1)] == '\0' {
      Swallows(e, a, i, k);
    } else {
      OpenStep(e, a, i, k);
      assert f[i] == g[i] == a[i];
      var it := ItemAt(e, g, i, k);
      NotClosed(e, a, it.at, it.next);
      SamePrefix(it.text, Format(e, f, it.at, it.next).text, Format(e, g, it.at, it.next).text);
    }
  }

  lemma OpenEnds(a: Text, i: nat)
    requires i <= |a| && !Closed(a + "\0", i)
    ensures i < |a|
  {
  }

  lemma OpenStep(e: Env, a: Text, i: nat, k: nat)
    requires i < |a| && !Closed(a + "\0", i) && (a[i] == '%' ==> (a + "\0")[End(a + "\0", i + 1)] != '\0')
    ensures var it := ItemAt(e, a + "\0", i, k);
      ItemAt(e, a + "%\0", i, k) == it && !Closed(a + "\0", it.at)
  {
    hide Scan, Convert, SameConversion, Closed, End;
    var f, g := a + "%\0", a + "\0";
    assert f[i] == g[i] == a[i];
    OpenAfter(g, i);
    if g[i] == '%' {
      NextItem(e, g, i, k);
      assert f[..|a|] == a && g[..|a|] == a;
      InWindow(f, g, 0, i + 1);
      SamePiece(e, f, g, 0, i, k);
    }
  }

  lemma OpenAfter(g: string, i: nat)
    requires CString(g) && i < |g| - 1 && !Closed(g, i) && (g[i] == '%' ==> g[End(g, i + 1)] != '\0')
    ensures !Closed(g, if g[i] == '%' && Converts(g[End(g, i + 1)]) then End(g, i + 1) + 1 else i + 1)
  {
  }

  lemma NextItem(e: Env, g: string, i: nat, k: nat)
    requires CString(g) && i < |g| - 1 && g[i] == '%'
    ensures var j := End(g, i + 1); ItemAt(e, g, i, k).at == if Converts(g[j]) then j + 1 else i + 1
  {
    hide Scan, Convert;
    var st := Scan(e, g, i + 1, NO_FLAGS, k);
    ScanStops(e, g, i + 1, NO_FLAGS, k);
    ConvertsWhen(e, g[st.at], st.flags, st.next);
  }

  lemma SamePrefix(t: string, u: string, v: string)
    requires u != v + "%"
    ensures t + u != (t + v) + "%"
  {
    assert (t + u)[|t|..] == u;
    assert ((t + v) + "%")[|t|..] == v + "%";
  }

  lemma Swallows(e: Env, a: Text, i: nat, k: nat)
    requires i < |a| && a[i] == '%' && End(a + "\0", i + 1) == |a|
    ensures Format(e, a + "%\0", i, k).text == "%"
    ensures |Format(e, a + "\0", i, k).text| == |a| - i
  {
    hide Scan, Format, End;
    var f, g := a + "%\0", a + "\0";
    forall m | i < m < |a| ensures IsFlag(f[m]) {
      assert f[m] == g[m];
    }
    SkipFlags(f, i + 1, |a|);
    ScanStops(e, f, i + 1, NO_FLAGS, k);
    assert f[|a|] == '%' && f[|a| + 1] == '\0';
    assert Format(e, f, i, k).text == "%" by { LastConversion(e, f, i, k); }
    forall m: nat | i <= m < |g| - 1 ensures !Completes(g, m) {
      SkipFlags(g, m + 1, |a|);
    }
    Literal(e, g, i, k);
  }

  lemma LastConversion(e: Env, f: string, i: nat, k: nat)
    requires CString(f) && i < |f| - 2 && f[i] == '%' && End(f, i + 1) == |f| - 2 && f[|f| - 2] == '%'
    ensures Format(e, f, i, k).text == "%"
  {
    hide Scan;
    ScanStops(e, f, i + 1, NO_FLAGS, k);
    Ends(e, f, Scan(e, f, i + 1, NO_FLAGS, k).next);
  }

  /** A format is closed exactly when it can be cut there. */
  lemma ClosedExactly(e: Env, a: Text, k: nat)
    ensures Closed(a + "\0", 0) <==>
            forall b: Text :: Format(e, a + b + "\0", 0, k).text == SideBySide(e, a, b, k)
  {
    hide Closed, Format;
    if Closed(a + "\0", 0) {
      forall b: Text ensures Format(e, a + b + "\0", 0, k).text == SideBySide(e, a, b, k) {
        Concatenation(e, a, b, k);
      }
    } else {
      NotClosed(e, a, 0, k);
      var b: Text := "%";
      assert a + b + "\0" == a + "%\0";
      JustPercent(e, Format(e, a + "\0", 0, k).next);
      assert Format(e, a + b + "\0", 0, k).text != SideBySide(e, a, b, k);
    }
  }

  ghost function SideBySide(e: Env, a: Text, b: Text, k: nat): string {
    var r := Format(e, a + "\0", 0, k);
    r.text + Format(e, b + "\0", 0, r.next).text
  }

  lemma JustPercent(e: Env, k: nat)
    ensures Format(e, "%" + "\0", 0, k).text == "%"
  {
  }

  // ---------------------------------------------------------------- escaping

  function Escape(s: Text): Text {
    if s == "" then "" else (if s[0] == '%' then "%%" else [s[0]]) + Escape(s[1..])
  }

  lemma OneEscaped(e: Env, c: char, k: nat)
    requires c != '\0'
    ensures var g := (if c == '%' then "%%" else [c]) + "\0"; Closed(g, 0) && Format(e, g, 0, k) == Out([c], k)
  {
  }

  /** A text with its '%' doubled is printed as it is and takes no argument. */
  lemma {:induction false} EscapeRoundTrip(e: Env, s: Text, k: nat)
    ensures Format(e, Escape(s) + "\0", 0, k) == Out(s, k)
  {
    hide Format, Closed;
    if s == "" {
      assert Escape(s) + "\0" == "\0";
      Ends(e, "\0", k);
    } else {
      var first: Text := if s[0] == '%' then "%%" else [s[0]];
      var g := first + "\0";
      OneEscaped(e, s[0], k);
      EscapeRoundTrip(e, s[1..], k);
      Concatenation(e, first, Escape(s[1..]), k);
      assert [s[0]] + s[1..] == s;
    }
  }

  // ---------------------------------------------------------------- what conversions mean

  /** %s prints max(width, characters shown) characters; they are a prefix of the string on one side
      and nothing but padding on the other. */
  lemma StringTextIs(t: string, fl: Flags)
    ensures var s := Shown(t, fl.precision); var r := StringText(t, fl);
      && |r| == (if fl.width > |s| then fl.width else |s|)
      && (fl.padc == '-' ==> s <= r && forall i :: |s| <= i < |r| ==> r[i] == ' ')
      && (fl.padc != '-' ==> r[|r| - |s|..] == s && forall i :: 0 <= i < |r| - |s| ==> r[i] == fl.padc)
  {
  }

  /** %d prints a numeral of the magnitude, after a '-' exactly when the value is negative; the width
      does not count the sign. */
  lemma SignedReadsBack(w: Word, fl: Flags)
    requires DigitOf(fl.padc) == 0
    ensures var v := AsInt(w); var r := SignedText(v, fl);
      && (v < 0 ==> r[0] == '-' && -v == ReadBack(r[1..], 10))
      && (v >= 0 ==> v == ReadBack(r, 10))
      && |r| >= fl.width + (if v < 0 then 1 else 0)
  {
    var v := AsInt(w);
    NumeralReadsBack(if v < 0 then -v else v, 10, fl.width, fl.padc);
  }

  function BaseOf(c: char): nat { if c == 'o' then 8 else if c == 'u' then 10 else 16 }

  /** %u, %o, %x and %p print the word in bases 10, 8, 16 and, behind 0x, 16; none loses a digit. */
  lemma UnsignedReadsBack(e: Env, c: char, fl: Flags, k: nat)
    requires c in "uoxp" && DigitOf(fl.padc) == 0
    ensures var r := Convert(e, c, fl, k);
      && r.Done? && r.used == 1
      && (c == 'p' ==> "0x" <= r.text)
      && ReadBack(if c == 'p' then r.text[2..] else r.text, BaseOf(c)) == e.args(k).word
  {
    hide Numeral, ReadBack;
    var w := e.args(k).word;
    NumeralReadsBack(w, BaseOf(c), fl.width, fl.padc);
    var d := Numeral(w, BaseOf(c), fl.width, fl.padc);
    assert ("0x" + d)[2..] == d && ("0x" + d)[..2] == "0x";
  }

  /** The decimal numeral of n. */
  function Decimal(n: nat): (s: string)
    ensures |s| == |Digits(n, 10)|
    ensures forall i :: 0 <= i < |s| ==> IsDigit(s[i]) && s[i] as int - '0' as int == Digits(n, 10)[i]
    ensures s[0] == '0' <==> n == 0
  {
    DigitsDecode(n, 10);
    Chars(Digits(n, 10))
  }

  lemma {:induction false} NumberReads(f: string, j: nat, n: nat, i: nat)
    requires CString(f) && i <= |Decimal(n)| && j + |Decimal(n)| < |f|
    requires f[j..j + |Decimal(n)|] == Decimal(n) && !IsDigit(f[j + |Decimal(n)|])
    ensures Number(f, j + i, Decode(Digits(n, 10)[..i], 10)) == (n, j + |Decimal(n)|)
    decreases |Decimal(n)| - i
  {
    hide Decode, Digits, Decimal;
    var d := Digits(n, 10);
    DigitsDecode(n, 10);
    assert d[..|d|] == d;
    if i < |d| {
      assert f[j + i] == f[j..j + |d|][i];
      assert d[..i + 1] == d[..i] + [d[i]];
      DecodeSnoc(d[..i], d[i], 10);
      NumberReads(f, j, n, i + 1);
    }
  }

  /** A field written as width '.' precision is read as those numbers: the width is not 0, and a
      precision of 0 is taken for the flag that pads with zeros. */
  lemma FieldReads(e: Env, f: string, j: nat, w: nat, p: nat, k: nat)
    requires CString(f) && w > 0
    requires var n := |Decimal(w)| + 1 + |Decimal(p)|;
      && j + n < |f| && !IsFlag(f[j + n])
      && f[j..j + n] == Decimal(w) + "." + Decimal(p)
    ensures Scan(e, f, j, NO_FLAGS, k) ==
      Stop(j + |Decimal(w)| + 1 + |Decimal(p)|, if p > 0 then Flags(' ', w, p) else Flags('0', w, -1), k)
  {
    hide Digits, Decimal, Number;
    var m, n := |Decimal(w)|, |Decimal(w)| + 1 + |Decimal(p)|;
    var t := f[j..j + n];
    assert t[..m] == Decimal(w) && t[m] == '.' && t[m + 1..] == Decimal(p);
    assert f[j..j + m] == t[..m] && f[j + m] == t[m] && f[j + m + 1..j + n] == t[m + 1..];
    assert f[j] == t[0] && f[j + m + 1] == t[m + 1];
    NumberReads(f, j, w, 0);
    DecodeNone(10);
    assert Digits(w, 10)[..0] == Digits(p, 10)[..0] == [];
    AfterDot(e, f, j + m, w, p, k);
  }

  /** A pad flag before a width is read as that padding and width; a '*' alone takes its width from the
      next argument, which may be negative. */
  lemma PadReads(e: Env, f: string, j: nat, w: nat, k: nat)
    requires CString(f) && w > 0
    requires j + 1 + |Decimal(w)| < |f| && !IsFlag(f[j + 1 + |Decimal(w)|])
    requires (f[j] == '-' || f[j] == '0') && f[j + 1..j + 1 + |Decimal(w)|] == Decimal(w)
    ensures Scan(e, f, j, NO_FLAGS, k) == Stop(j + 1 + |Decimal(w)|, Flags(f[j], w, -1), k)
  {
    hide Digits, Decimal, Number;
    var t := f[j + 1..j + 1 + |Decimal(w)|];
    assert f[j + 1] == t[0];
    NumberReads(f, j + 1, w, 0);
    DecodeNone(10);
    assert Digits(w, 10)[..0] == [];
    var fl := NO_FLAGS.(padc := f[j]);
    assert Scan(e, f, j, NO_FLAGS, k) == Scan(e, f, j + 1, fl, k);
    assert Scan(e, f, j + 1, fl, k) == Scan(e, f, j + 1 + |t|, Precise(fl, w), k);
  }

  lemma StarReads(e: Env, f: string, j: nat, k: nat)
    requires CString(f) && j + 1 < |f| && f[j] == '*' && !IsFlag(f[j + 1])
    ensures Scan(e, f, j, NO_FLAGS, k) == Stop(j + 1, Flags(' ', AsInt(e.args(k).word), -1), k + 1)
  {
  }

  /** A '.' without a width before it sets the width to 0, so that the number or argument behind it is the
      precision; '#' and 'l' mean nothing. */
  lemma DotReads(e: Env, f: string, j: nat, p: nat, k: nat)
    requires CString(f) && p > 0
    requires j + 1 + |Decimal(p)| < |f| && !IsFlag(f[j + 1 + |Decimal(p)|])
    requires f[j] == '.' && f[j + 1..j + 1 + |Decimal(p)|] == Decimal(p)
    ensures Scan(e, f, j, NO_FLAGS, k) == Stop(j + 1 + |Decimal(p)|, Flags(' ', 0, p), k)
  {
    hide Digits, Decimal, Number;
    var t := f[j + 1..j + 1 + |Decimal(p)|];
    assert f[j + 1] == t[0];
    NumberReads(f, j + 1, p, 0);
    DecodeNone(10);
    assert Digits(p, 10)[..0] == [];
    var fl := Flags(' ', 0, -1);
    assert Scan(e, f, j, NO_FLAGS, k) == Scan(e, f, j + 1, fl, k);
    assert Scan(e, f, j + 1, fl, k) == Scan(e, f, j + 1 + |t|, Flags(' ', 0, p), k);
  }

  lemma DotStarReads(e: Env, f: string, j: nat, k: nat)
    requires CString(f) && j + 2 < |f| && f[j] == '.' && f[j + 1] == '*' && !IsFlag(f[j + 2])
    ensures Scan(e, f, j, NO_FLAGS, k) == Stop(j + 2, Flags(' ', 0, AsInt(e.args(k).word)), k + 1)
  {
    var fl := Flags(' ', 0, AsInt(e.args(k).word));
    assert Scan(e, f, j, NO_FLAGS, k) == Scan(e, f, j + 1, Flags(' ', 0, -1), k);
    assert Scan(e, f, j + 2, fl, k + 1) == Stop(j + 2, fl, k + 1);
  }

  lemma IdleFlags(e: Env, f: string, j: nat, fl: Flags, k: nat)
    requires CString(f) && j < |f| && (f[j] == '#' || f[j] == 'l')
    ensures j + 1 < |f| && Scan(e, f, j, fl, k) == Scan(e, f, j + 1, fl, k)
  {
  }

  lemma AfterDot(e: Env, f: string, j: nat, w: nat, p: nat, k: nat)
    requires CString(f) && j + 1 + |Decimal(p)| < |f| && f[j] == '.' && f[j + 1..j + 1 + |Decimal(p)|] == Decimal(p)
    requires !IsFlag(f[j + 1 + |Decimal(p)|])
    ensures Scan(e, f, j, Flags(' ', w, -1), k) ==
      Stop(j + 1 + |Decimal(p)|, if p > 0 then Flags(' ', w, p) else Flags('0', w, -1), k)
  {
    hide Digits, Decimal, Number;
    var t := f[j + 1..j + 1 + |Decimal(p)|];
    assert f[j + 1] == t[0];
    if p > 0 {
      NumberReads(f, j + 1, p, 0);
      DecodeNone(10);
      assert Digits(p, 10)[..0] == [];
      assert Scan(e, f, j, Flags(' ', w, -1), k) == Scan(e, f, j + 1, Flags(' ', w, -1), k);
      assert Scan(e, f, j + 1, Flags(' ', w, -1), k) == Scan(e, f, j + 1 + |t|, Flags(' ', w, p), k);
      assert Scan(e, f, j + 1 + |t|, Flags(' ', w, p), k) == Stop(j + 1 + |t|, Flags(' ', w, p), k);
    } else {
      assert |Decimal(0)| == 1 by { ZeroDigits(); }
      assert Scan(e, f, j, Flags(' ', w, -1), k) == Scan(e, f, j + 1, Flags(' ', w, -1), k);
      assert Scan(e, f, j + 2, Flags('0', w, -1), k) == Stop(j + 2, Flags('0', w, -1), k);
    }
  }

  lemma ZeroDigits()
    ensures |Digits(0, 10)| == 1
  {
  }

  /** The flags, and the digits among them. */
  lemma FlagsAre(c: char)
    ensures IsFlag(c) <==> c in "0123456789-*.#l"
    ensures IsDigit(c) <==> c in "0123456789"
    ensures Converts(c) <==> c in "cfsduopx%"
  {
  }

  /** The int with these 32 bits. */
  lemma AsIntIs(w: Word)
    ensures -0x8000_0000 <= AsInt(w) < 0x8000_0000 && (AsInt(w) - w) % 0x1_0000_0000 == 0
  {
  }

  /** What each conversion prints of its argument; all but '%' take one, and no other character is one. */
  lemma ConvertIs(e: Env, c: char, fl: Flags, k: nat)
    ensures var r := Convert(e, c, fl, k);
      var w := e.args(k).word;
      match c
      case 'c' => r == Done([(w % 256) as char], 1)
      case 's' => r.Done? && r.used == 1 && Padded(r.text, if w == 0 then "(null)" else e.args(k).text, fl)
      case 'd' =>
        r == Done(if w < 0x8000_0000 then Numeral(w, 10, fl.width, fl.padc)
                  else "-" + Numeral(0x1_0000_0000 - w, 10, fl.width, fl.padc), 1)
      case 'u' => r == Done(Numeral(w, 10, fl.width, fl.padc), 1)
      case 'o' => r == Done(Numeral(w, 8, fl.width, fl.padc), 1)
      case 'x' => r == Done(Numeral(w, 16, fl.width, fl.padc), 1)
      case 'p' => r == Done("0x" + Numeral(w, 16, fl.width, fl.padc), 1)
      case 'f' => r == Done(e.double(k, fl.width, fl.precision), 1)
      case '%' => r == Done("%", 0)
      case _ => r == Bad
  {
    hide Numeral, StringText, SignedText, AsInt, Shown, Padded;
    StringPadded(if e.args(k).word == 0 then "(null)" else e.args(k).text, fl);
    SignedIs(e.args(k).word, fl);
  }

  lemma StringPadded(t: string, fl: Flags)
    ensures Padded(StringText(t, fl), t, fl)
  {
    hide StringText;
    StringTextIs(t, fl);
  }

  lemma SignedIs(w: Word, fl: Flags)
    ensures SignedText(AsInt(w), fl) == if w < 0x8000_0000 then Numeral(w, 10, fl.width, fl.padc)
                                        else "-" + Numeral(0x1_0000_0000 - w, 10, fl.width, fl.padc)
  {
    hide Numeral;
  }

  /** r is as much of t as the precision admits, padded to the width: behind it with spaces if the flag is
      '-', in front of it with the padding character otherwise. */
  ghost predicate Padded(r: string, t: string, fl: Flags) {
    var n := if 0 <= fl.precision < |t| then fl.precision else |t|;
    && |r| == Max(fl.width, n)
    && if fl.padc == '-' then r[..n] == t[..n] && forall i :: n <= i < |r| ==> r[i] == ' '
       else r[|r| - n..] == t[..n] && forall i :: 0 <= i < |r| - n ==> r[i] == fl.padc
  }

  /** A conversion that completes puts its text where it stands, and the format goes on behind it with the
      argument after those it took. */
  lemma ConversionPrints(e: Env, f: string, i: nat, k: nat)
    requires CString(f) && i < |f| - 1 && Completes(f, i)
    ensures var end := End(f, i + 1);
      var st := Scan(e, f, i + 1, NO_FLAGS, k);
      var r := Convert(e, f[end], st.flags, st.next);
      && r.Done? && end + 1 < |f|
      && Format(e, f, i, k) == Format(e, f, end + 1, st.next + r.used).After(r.text)
  {
    hide Scan, Convert;
    ScanStops(e, f, i + 1, NO_FLAGS, k);
    ConvertsWhen(e, f[End(f, i + 1)], Scan(e, f, i + 1, NO_FLAGS, k).flags, Scan(e, f, i + 1, NO_FLAGS, k).next);
  }

  /** A single conversion without flags prints what it makes of its argument, and nothing else. */
  lemma SimplePrints(e: Env, c: char, k: nat)
    requires Converts(c)
    ensures var r := Convert(e, c, Flags(' ', -1, -1), k);
      r.Done? && Format(e, ['%', c, '\0'], 0, k) == Out(r.text, k + r.used)
  {
    hide Convert;
    var f := ['%', c, '\0'];
    assert Scan(e, f, 1, NO_FLAGS, k) == Stop(1, NO_FLAGS, k) && End(f, 1) == 1;
    ConversionPrints(e, f, 0, k);
    var r := Convert(e, c, NO_FLAGS, k);
    Ends(e, f, k + r.used);
    assert r.text + "" == r.text;
  }

  /** And with a width and a precision, both read as the numbers they spell. */
  lemma FieldPrints(e: Env, f: Text, w: nat, p: nat, c: char, k: nat)
    requires Converts(c) && w > 0 && p > 0 && f == "%" + Decimal(w) + "." + Decimal(p) + [c]
    ensures var r := Convert(e, c, Flags(' ', w, p), k);
      r.Done? && Format(e, f + "\0", 0, k) == Out(r.text, k + r.used)
  {
    hide Convert, Decimal, Scan, End, Format;
    var g, n := f + "\0", |Decimal(w)| + 1 + |Decimal(p)|;
    assert g[1..1 + n] == Decimal(w) + "." + Decimal(p) && g[1 + n] == c && g[0] == '%' && |g| == n + 3;
    FieldReads(e, g, 1, w, p, k);
    ScanStops(e, g, 1, NO_FLAGS, k);
    ConversionPrints(e, g, 0, k);
    var r := Convert(e, c, Flags(' ', w, p), k);
    Ends(e, g, k + r.used);
    assert r.text + "" == r.text;
  }

  // ---------------------------------------------------------------- the code

  /** Case 's'. */
  method PutString(p: Text, fl: Flags) returns (out: string)
    ensures out == StringText(p, fl)
  {
    hide Fill;
    var width, precision := fl.width, fl.precision;
    ghost var s := Shown(p, precision);
    ghost var pad := "";
    out := "";
    if width > 0 && fl.padc != '-' {
      width := width - |Shown(p, precision)|;
      out, width := Pad(fl.padc, width);
      pad := out;
    }
    NoFill(fl.padc, fl.width);
    NoFill(fl.padc, fl.width - |s|);
    ghost var left := width;
    var i := 0;
    while i < |p| && precision != 0
      invariant 0 <= i <= |s| && out == pad + s[..i] && width == left - i
      invariant precision == if fl.precision < 0 then fl.precision else fl.precision - i
    {
      precision := if precision < 0 then precision else precision - 1;
      out := out + [p[i]];
      i := i + 1;
      width := width - 1;
    }
    assert i == |s| && s[..i] == s;
    NoFill(' ', width);
    var rest;
    rest, width := Pad(' ', width);
    out := out + rest;
    assert fl.padc == '-' ==> pad == "" && rest == Fill(' ', fl.width - |s|);
    assert fl.padc != '-' ==> pad == Fill(fl.padc, fl.width - |s|) && rest == "";
  }

  /** The loops that print padding until the width is used up. */
  method Pad(c: char, width: int) returns (out: string, left: int)
    ensures out == Fill(c, width) && left == if width > 0 then 0 else width
  {
    out, left := "", width;
    while left > 0
      invariant out == Fill(c, width - left) && (left >= 0 || left == width) && left <= width
      decreases left
    {
      out := out + [c];
      left := left - 1;
    }
  }

  lemma NoFill(c: char, n: int)
    ensures n <= 0 ==> Fill(c, n) == ""
  {
  }

  /** The switch up to the conversion character: flags, width, precision, '*'. */
  method Switch(e: Env, f: string, start: nat, next: nat) returns (fmt: nat, fl: Flags, k: nat)
    requires CString(f) && start < |f|
    ensures Scan(e, f, start, NO_FLAGS, next) == Stop(fmt, fl, k)
  {
    fmt, k, fl := start, next, NO_FLAGS;
    while IsFlag(f[fmt])
      invariant start <= fmt < |f| && Scan(e, f, fmt, fl, k) == Scan(e, f, start, NO_FLAGS, next)
      decreases |f| - fmt
    {
      var c := f[fmt];
      ghost var at := fmt;
      fmt := fmt + 1;
      if c == '-' || c == '0' {
        fl := fl.(padc := c);
      } else if IsDigit(c) {
        var n := c as int - '0' as int;
        while IsDigit(f[fmt])
          invariant at < fmt < |f| && n >= 0 && Number(f, fmt, n) == Number(f, at, 0)
          decreases |f| - fmt
        {
          n := n * 10 + (f[fmt] as int - '0' as int);
          fmt := fmt + 1;
        }
        fl := Precise(fl, n);
      } else if c == '*' {
        fl := Precise(fl, AsInt(e.args(k).word));
        k := k + 1;
      } else if c == '.' && fl.width < 0 {
        fl := fl.(width := 0);
      }
    }
  }

  /** The conversions of the switch; `ok` is false at `bad`. */
  method Emit(e: Env, c: char, fl: Flags, k: nat) returns (ok: bool, out: string, used: nat)
    ensures Convert(e, c, fl, k) == if ok then Done(out, used) else Bad
    ensures !ok ==> used == 0
  {
    hide Numeral;
    ok, out, used := true, "", 1;
    var a := e.args(k);
    match c {
      case 'c' => out := [(a.word % 256) as char];
      case 'f' => out := e.double(k, fl.width, fl.precision);
      case 's' => out := PutString(if a.word == 0 then "(null)" else a.text, fl);
      case 'd' =>
        var num: nat := a.word;
        if num >= WORD / 2 {
          out := "-";
          num := WORD - num;
        }
        var digits := Printnum(num, 10, fl.width, fl.padc);
        out := out + digits;
      case 'u' => out := Printnum(a.word, 10, fl.width, fl.padc);
      case 'o' => out := Printnum(a.word, 8, fl.width, fl.padc);
      case 'p' =>
        out := Printnum(a.word, 16, fl.width, fl.padc);
        out := "0x" + out;
      case 'x' => out := Printnum(a.word, 16, fl.width, fl.padc);
      case '%' => out, used := "%", 0;
      case _ => ok, used := false, 0;
    }
  }

  /** One round from a '%' to the end of its conversion, or back behind the '%'. */
  method Conversion(e: Env, f: string, i: nat, next: nat) returns (text: string, fmt: nat, k: nat)
    requires CString(f) && i < |f| - 1 && f[i] == '%'
    ensures ItemAt(e, f, i, next) == Item(text, fmt, k)
  {
    hide Scan, Convert;
    fmt := i + 1;
    var last := fmt;
    var fl;
    fmt, fl, k := Switch(e, f, fmt, next);
    var ch := f[fmt];
    fmt := fmt + 1;
    var ok, used;
    ok, text, used := Emit(e, ch, fl, k);
    k := k + used;
    if !ok {
      text := "%";
      fmt := last;
    }
  }

  /** vprintfmt: every format is printed and ends, without a read behind its terminator. */
  method Vprintfmt(e: Env, f: string) returns (out: string)
    requires CString(f)
    ensures out == Format(e, f, 0, 0).text
  {
    hide ItemAt;
    var fmt, k := 0, 0;
    out := "";
    while true
      invariant 0 <= fmt < |f| && k >= 0
      invariant out + Format(e, f, fmt, k).text == Format(e, f, 0, 0).text
      decreases |f| - fmt
    {
      while f[fmt] != '%'
        invariant 0 <= fmt < |f|
        invariant out + Format(e, f, fmt, k).text == Format(e, f, 0, 0).text
        decreases |f| - fmt
      {
        if f[fmt] == '\0' {
          Ends(e, f, k);
          assert out + "" == out;
          return;
        }
        PlainItem(e, f, fmt, k);
        out := out + [f[fmt]];
        fmt := fmt + 1;
      }
      var text;
      text, fmt, k := Conversion(e, f, fmt, k);
      out := out + text;
    }
  }

  lemma PlainItem(e: Env, f: string, i: nat, k: nat)
    requires CString(f) && i < |f| - 1 && f[i] != '%'
    ensures ItemAt(e, f, i, k) == Item([f[i]], i + 1, k)
  {
  }
}
