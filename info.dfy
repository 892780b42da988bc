/** The detail pane that `UI::update_info` fills for the selected item: a
    short list of text segments whose length grows with the verbosity level. */
module Info {
  import opened Apps

  /** A terminal colour. DarkGray is the one colour this component names;
      every other colour reaches it from the caller and stays opaque. */
  datatype Color = DarkGray | Other(code: nat)

  /** A piece of text for the terminal: plain, or drawn in a colour. The
      debug log uses plain segments only. */
  datatype Segment = Raw(content: string) | Styled(content: string, fg: Color)

  function DigitChar(d: nat): (c: char)
    requires d < 10
  {
    "0123456789"[d]
  }

  /** Every character of `s` is a decimal digit. */
  predicate IsDigits(s: string) {
    forall i :: 0 <= i < |s| ==> '0' <= s[i] <= '9'
  }

  /** The decimal digits of `n`, most significant first, without leading zeros. */
  function NatToDecimal(n: nat): (r: string)
    ensures |r| >= 1 && IsDigits(r)
    decreases n
  {
    if n < 10 then [DigitChar(n)] else NatToDecimal(n / 10) + [DigitChar(n % 10)]
  }

  /** `n` written as `{}` formats an integer: a minus sign for negative values. */
  function IntToDecimal(n: int): string
  {
    if n < 0 then "-" + NatToDecimal(-n) else NatToDecimal(n)
  }

  /** The value of a string of decimal digits. */
  function DecimalValue(s: string): nat
    requires IsDigits(s)
    decreases |s|
  {
    if s == [] then 0
    else
      10 * DecimalValue(s[..|s| - 1]) + (s[|s| - 1] as int - '0' as int)
  }

  /** `s` is an integer as `{}` formats one: an optional minus sign, then digits. */
  predicate IsInteger(s: string) {
    && s != []
    && IsDigits(s[1..])
    && (s[0] != '-' ==> '0' <= s[0] <= '9')
  }

  /** The value of a formatted integer. */
  function ParseInt(s: string): int
    requires IsInteger(s)
  {
    if s[0] == '-' then -(DecimalValue(s[1..]) as int)
    else
      assert IsDigits(s) by {
        assert forall i :: 0 < i < |s| ==> s[i] == s[1..][i - 1];
      }
      DecimalValue(s)
  }

  lemma {:induction false} DecimalRoundTrip(n: nat)
    ensures DecimalValue(NatToDecimal(n)) == n
    decreases n
  {
    if n >= 10 {
      DecimalRoundTrip(n / 10);
      var r := NatToDecimal(n);
      assert r[..|r| - 1] == NatToDecimal(n / 10);
    }
  }

  /** The score line of the detail pane shows the score itself. */
  lemma IntToDecimalRoundTrip(n: int)
    ensures IsInteger(IntToDecimal(n)) && ParseInt(IntToDecimal(n)) == n
  {
    var s := IntToDecimal(n);
    if n < 0 {
      var d := NatToDecimal(-n);
      DecimalRoundTrip(-n);
      assert s[0] == '-' && s[1..] == d;
    } else {
      var d := NatToDecimal(n);
      DecimalRoundTrip(n);
      assert s == d && '0' <= d[0] <= '9';
      assert IsDigits(d[1..]) by {
        assert forall i :: 0 <= i < |d| - 1 ==> d[1..][i] == d[i + 1];
      }
    }
  }

  /** The label in front of the command line. */
  function ExecLabel(terminal: bool): string {
    if terminal then "\nExec (terminal): " else "\nExec: "
  }

  /** The detail segments for `app` at verbosity `verbose`: the name in
      `color` and the description always; from level 1 the exec label and
      the command line in dark gray; from level 2 the matching score. */
  function InfoText(app: Item, verbose: nat, color: Color): seq<Segment> {
    var base := [Styled(app.name + "\n\n", color), Raw(app.description + "\n")];
    if verbose == 0 then base
    else
      var exec := base + [Raw(ExecLabel(app.terminalExec)), Styled(app.exec, DarkGray)];
      if verbose == 1 then exec
      else exec + [Raw("\nMatching score: " + IntToDecimal(app.score))]
  }

  /** What the pane shows: two, four or five segments by verbosity; the name
      in the given colour, then the description; from level 1 the label that
      says whether the command runs in a terminal, then the command in dark
      gray; from level 2 a line from which the item's score reads back. */
  lemma InfoTextLayout(app: Item, verbose: nat, color: Color)
    ensures var r := InfoText(app, verbose, color);
      && |r| == (if verbose == 0 then 2 else if verbose == 1 then 4 else 5)
      && r[0] == Styled(app.name + "\n\n", color) && r[1] == Raw(app.description + "\n")
      && (verbose > 0 ==> r[2] == Raw(if app.terminalExec then "\nExec (terminal): " else "\nExec: "))
      && (verbose > 0 ==> r[3] == Styled(app.exec, DarkGray))
      && (verbose > 1 ==> && r[4].Raw? && |r[4].content| > 17
                          && r[4].content[..17] == "\nMatching score: "
                          && IsInteger(r[4].content[17..]) && ParseInt(r[4].content[17..]) == app.score)
  {
    if verbose > 1 {
      IntToDecimalRoundTrip(app.score);
      var line := "\nMatching score: " + IntToDecimal(app.score);
      assert line[17..] == IntToDecimal(app.score);
    }
  }

  /** Raising the verbosity only appends segments: the lower level's text is
      a prefix of the higher one's, strictly shorter up to level 2. */
  lemma InfoTextGrows(app: Item, v: nat, w: nat, color: Color)
    requires v <= w
    ensures InfoText(app, v, color) <= InfoText(app, w, color)
    ensures v < w && v < 2 ==> |InfoText(app, v, color)| < |InfoText(app, w, color)|
  {
  }
}
