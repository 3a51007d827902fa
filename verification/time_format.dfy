/** `formatTime`, which each of the three screens declares with the same
    body: whole minutes and the remaining seconds, each padded to two
    digits, joined by a colon. */
module TimeFormat {
  import opened Decimal

  /** `n.toString().padStart(2, '0')`. */
  function TwoDigits(n: nat): (r: string)
    ensures |r| >= 2 && AllDigits(r) && Value(r) == n
    ensures n < 100 ==> |r| == 2
  {
    ValueOfZeroPadded(NatToString(n), 2);
    ValueOfNatToString(n);
    NatToStringLength(n);
    PadStart(NatToString(n), 2, '0')
  }

  /** Seconds are never negative where the screens format them (the
      countdown and the elapsed time both stay in [0, 1800]), so JavaScript's
      `Math.floor(seconds / 60)` and `seconds % 60` are Dafny's `/` and `%`. */
  function FormatTime(seconds: nat): (r: string)
    ensures |r| >= 5 && r[|r| - 3] == ':'
    ensures seconds < 6000 ==> |r| == 5
  {
    TwoDigits(seconds / 60) + ":" + TwoDigits(seconds % 60)
  }

  /** `r` is `mm:ss` read back: a colon three from the end, digits on both
      sides, the minutes `m` before it and the two second digits `sec` after. */
  predicate ReadsBackAs(r: string, m: nat, sec: nat) {
    && |r| >= 5
    && r[|r| - 3] == ':'
    && Denotes(r[..|r| - 3], m)
    && Denotes(r[|r| - 2..], sec)
  }

  /** `s` is a string of digits whose value is `n`. */
  predicate Denotes(s: string, n: nat) {
    AllDigits(s) && Value(s) == n
  }

  /** For every input: the text ends in `:ss` with two second digits below
      60, everything before the colon is the whole minutes, and reading the
      two parts back as `mm * 60 + ss` gives the input. */
  lemma FormatTimeRoundTrip(seconds: nat)
    ensures exists m: nat, sec: nat :: ReadsBackAs(FormatTime(seconds), m, sec) && sec < 60 && m * 60 + sec == seconds
  {
    var m, sec := seconds / 60, seconds % 60;
    FormatTimeSplits(seconds, m, sec);
  }

  lemma FormatTimeSplits(seconds: nat, m: nat, sec: nat)
    requires m == seconds / 60 && sec == seconds % 60
    ensures sec < 60 && m * 60 + sec == seconds
    ensures ReadsBackAs(FormatTime(seconds), m, sec)
  {
    JoinRoundTrip(m, sec);
  }

  /** `TwoDigits(m) + ":" + TwoDigits(sec)` splits back into its two parts. */
  lemma JoinRoundTrip(m: nat, sec: nat)
    requires sec < 60
    ensures ReadsBackAs(TwoDigits(m) + ":" + TwoDigits(sec), m, sec)
  {
    SplitAtColon(TwoDigits(m), TwoDigits(sec));
  }

  /** Two digit strings joined by a colon split back at the colon. */
  lemma SplitAtColon(mm: string, ss: string)
    requires |mm| >= 2 && |ss| == 2 && AllDigits(mm) && AllDigits(ss)
    ensures ReadsBackAs(mm + ":" + ss, Value(mm), Value(ss))
  {
    var r := mm + ":" + ss;
    assert r[..|r| - 3] == mm;
    assert r[|r| - 2..] == ss;
    assert Denotes(mm, Value(mm)) && Denotes(ss, Value(ss));
  }

  /** Below 100 minutes the text is exactly `mm:ss`: five characters with the
      colon at position 2. */
  lemma FormatTimeShort(seconds: nat)
    requires seconds < 6000
    ensures var r := FormatTime(seconds);
      && |r| == 5 && r[2] == ':'
      && AllDigits(r[..2]) && AllDigits(r[3..])
      && Value(r[3..]) <= 59
      && Value(r[..2]) * 60 + Value(r[3..]) == seconds
  {
    var m, sec := seconds / 60, seconds % 60;
    assert m < 100;
    FormatTimeSplits(seconds, m, sec);
    var r := FormatTime(seconds);
    assert |TwoDigits(m)| == 2;
    assert |r| == 5;
    assert r[..2] == r[..|r| - 3] && r[3..] == r[|r| - 2..];
  }

  /** No time at all reads "00:00". */
  lemma NoTimeShown()
    ensures FormatTime(0) == "00:00"
  {
    assert NatToString(0) == "0";
    assert TwoDigits(0) == "00";
  }
}
