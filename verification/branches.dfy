/** The improvement branch: its name, built from the fixed prefix and the
    `%Y%m%d%H%M%S` rendering of the clock, and its creation at the base
    branch's commit (`create_branch`, written identically in bot.py and in
    the pull-request manager). */
module Branches {
  import opened Wrappers
  import opened Strings
  import opened GitHub

  /** A clock reading, to the second. */
  datatype DateTime = DateTime(year: nat, month: nat, day: nat, hour: nat, minute: nat, second: nat)

  predicate LeapYear(y: nat) {
    (y % 4 == 0 && y % 100 != 0) || y % 400 == 0
  }

  function DaysInMonth(y: nat, m: nat): nat {
    if m == 2 then (if LeapYear(y) then 29 else 28)
    else if m == 4 || m == 6 || m == 9 || m == 11 then 30
    else 31
  }

  /** The readings the clock gives: a Python `datetime` from year 1000 on,
      whose `%Y` is four digits on every platform. */
  predicate ValidDateTime(t: DateTime) {
    1000 <= t.year <= 9999 && 1 <= t.month <= 12 && 1 <= t.day <= DaysInMonth(t.year, t.month) &&
    t.hour < 24 && t.minute < 60 && t.second < 60
  }

  function Pow10(w: nat): (r: nat)
    ensures r >= 1
  {
    if w == 0 then 1 else 10 * Pow10(w - 1)
  }

  /** `n` in exactly `w` decimal digits, zero-padded on the left (`%04d`,
      `%02d`); only the low `w` digits are kept. */
  function Digits(n: nat, w: nat): (r: string)
    ensures |r| == w
    ensures forall i | 0 <= i < |r| :: IsDigit(r[i])
  {
    if w == 0 then [] else Digits(n / 10, w - 1) + [DigitChar(n % 10)]
  }

  /** The value of a string of decimal digits. */
  function DigitsValue(s: string): nat {
    if s == [] then 0 else 10 * DigitsValue(s[..|s| - 1]) + DigitValue(s[|s| - 1])
  }

  lemma {:induction false} DigitsRoundTrip(n: nat, w: nat)
    requires n < Pow10(w)
    ensures DigitsValue(Digits(n, w)) == n
  {
    if w > 0 {
      var s := Digits(n, w);
      assert s[..|s| - 1] == Digits(n / 10, w - 1);
      assert n / 10 < Pow10(w - 1);
      DigitsRoundTrip(n / 10, w - 1);
      DigitRoundTrip(n % 10);
    }
  }

  /** `datetime.strftime("%Y%m%d%H%M%S")` */
  function Timestamp(t: DateTime): string {
    Digits(t.year, 4) + Digits(t.month, 2) + Digits(t.day, 2) +
    Digits(t.hour, 2) + Digits(t.minute, 2) + Digits(t.second, 2)
  }

  /** Reads a 14-digit timestamp back. */
  function ParseTimestamp(ts: string): DateTime
    requires |ts| == 14
  {
    DateTime(DigitsValue(ts[0..4]), DigitsValue(ts[4..6]), DigitsValue(ts[6..8]),
             DigitsValue(ts[8..10]), DigitsValue(ts[10..12]), DigitsValue(ts[12..14]))
  }

  /** The timestamp is 14 digits and loses nothing of a valid reading. */
  lemma TimestampRoundTrip(t: DateTime)
    requires ValidDateTime(t)
    ensures |Timestamp(t)| == 14
    ensures forall i | 0 <= i < 14 :: IsDigit(Timestamp(t)[i])
    ensures ParseTimestamp(Timestamp(t)) == t
  {
    var ts := Timestamp(t);
    assert ts[0..4] == Digits(t.year, 4);
    assert ts[4..6] == Digits(t.month, 2);
    assert ts[6..8] == Digits(t.day, 2);
    assert ts[8..10] == Digits(t.hour, 2);
    assert ts[10..12] == Digits(t.minute, 2);
    assert ts[12..14] == Digits(t.second, 2);
    assert Pow10(2) == 100 && Pow10(4) == 10000;
    DigitsRoundTrip(t.year, 4);
    DigitsRoundTrip(t.month, 2);
    DigitsRoundTrip(t.day, 2);
    DigitsRoundTrip(t.hour, 2);
    DigitsRoundTrip(t.minute, 2);
    DigitsRoundTrip(t.second, 2);
  }

  const BranchPrefix: string := "reposage-improvements-"

  /** `f"reposage-improvements-{timestamp}"` */
  function BranchName(now: DateTime): string {
    BranchPrefix + Timestamp(now)
  }

  /** Runs started at different seconds get different branches, and every
      branch name is the prefix followed by 14 digits. */
  lemma BranchNameInjective(t: DateTime, u: DateTime)
    requires ValidDateTime(t) && ValidDateTime(u) && BranchName(t) == BranchName(u)
    ensures t == u
  {
    assert Timestamp(t) == BranchName(t)[|BranchPrefix|..];
    assert Timestamp(u) == BranchName(u)[|BranchPrefix|..];
    TimestampRoundTrip(t);
    TimestampRoundTrip(u);
  }

  lemma BranchNameShape(t: DateTime)
    requires ValidDateTime(t)
    ensures |BranchName(t)| == |BranchPrefix| + 14 == 36
    ensures IsPrefix(BranchPrefix, BranchName(t))
    ensures forall i | |BranchPrefix| <= i < 36 :: IsDigit(BranchName(t)[i])
  {
    TimestampRoundTrip(t);
  }

  /** `create_branch`: a reference `refs/heads/<name>` at the commit of the
      base branch. Any API error is reported as `false`, and then nothing
      has changed. */
  method CreateBranch(repo: Repository, base: string, name: string) returns (ok: bool)
    requires repo.Valid()
    modifies repo
    ensures repo.Valid()
    ensures ok <==> old(repo.Head(base)).Some? && HeadRef(name) !in old(repo.refs)
    ensures ok ==> repo.refs == old(repo.refs)[HeadRef(name) := old(repo.Head(base)).value]
    ensures ok ==> repo.Head(name) == old(repo.Head(base))
    ensures !ok ==> repo.refs == old(repo.refs)
    ensures repo.commits == old(repo.commits) && repo.pulls == old(repo.pulls)
  {
    var source := repo.GetBranch(base);
    if source.Failure? {
      return false;
    }
    var created := repo.CreateGitRef(HeadRef(name), source.value);
    ok := created.Success?;
  }
}
