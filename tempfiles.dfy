/** The slice of the file system the handler touches: the temporary files it
    creates with `tempfile.NamedTemporaryFile(delete=False, ...)` and removes
    with `os.unlink` (app.py:140-157, 169). A fresh path is modelled by a
    counter: the n-th file created gets id n, so no two paths ever coincide. */
module TempFiles {
  import Decimal

  /** A temporary file: the id that stands for its random name, and the suffix
      the handler asked for. */
  datatype TempPath = TempPath(id: nat, suffix: string)

  /** The name passed to ffmpeg and to the uploader. */
  function PathName(p: TempPath): string
  {
    "/tmp/tmp" + Decimal.NatToDecimal(p.id) + p.suffix
  }

  /** `s` is empty or does not start with a decimal digit, as the handler's
      suffixes `.<ext>` and `_compressed.mp4` do not. */
  predicate NoLeadingDigit(s: string)
  {
    s == [] || !('0' <= s[0] <= '9')
  }

  /** The length of the run of decimal digits at the start of `t`. */
  function DigitRun(t: string): nat
  {
    if t == [] || !('0' <= t[0] <= '9') then 0 else 1 + DigitRun(t[1..])
  }

  /** Digits followed by a text without a leading digit: the run is exactly
      the digits. */
  lemma {:induction false} DigitRunOf(d: string, s: string)
    requires Decimal.IsDigits(d) && NoLeadingDigit(s)
    ensures DigitRun(d + s) == |d|
  {
    if d == [] {
      assert d + s == s;
    } else {
      assert (d + s)[1..] == d[1..] + s;
      DigitRunOf(d[1..], s);
    }
  }

  /** Different temporary files have different names, as long as no suffix
      starts with a digit. */
  lemma PathNameInjective(p: TempPath, q: TempPath)
    requires NoLeadingDigit(p.suffix) && NoLeadingDigit(q.suffix)
    requires PathName(p) == PathName(q)
    ensures p == q
  {
    var dp, dq := Decimal.NatToDecimal(p.id), Decimal.NatToDecimal(q.id);
    var tp, tq := dp + p.suffix, dq + q.suffix;
    assert PathName(p) == "/tmp/tmp" + tp;
    assert PathName(q) == "/tmp/tmp" + tq;
    assert tp == PathName(p)[8..] == PathName(q)[8..] == tq;
    DigitRunOf(dp, p.suffix);
    DigitRunOf(dq, q.suffix);
    assert dp == tp[..|dp|] && dq == tq[..|dq|];
    assert p.suffix == tp[|dp|..] && q.suffix == tq[|dq|..];
    Decimal.DecimalRoundTrip(p.id);
    Decimal.DecimalRoundTrip(q.id);
  }

  class TempDir {
    /** The temporary files that exist now. */
    var live: set<TempPath>
    /** How many temporary files have been created so far. */
    var issued: nat

    /** Every existing file was created earlier, so a new id is fresh. */
    ghost predicate Valid()
      reads this
    {
      forall p :: p in live ==> p.id < issued
    }

    constructor ()
      ensures Valid() && live == {} && issued == 0
    {
      live := {};
      issued := 0;
    }

    /** `NamedTemporaryFile(delete=False, suffix=suffix)`: creates a new, empty
        file under a name no existing file has, and leaves it in place. */
    method Create(suffix: string) returns (p: TempPath)
      requires Valid()
      modifies this
      ensures Valid()
      ensures p == TempPath(old(issued), suffix) && p !in old(live)
      ensures live == old(live) + {p} && issued == old(issued) + 1
    {
      p := TempPath(issued, suffix);
      live := live + {p};
      issued := issued + 1;
    }

    /** `os.path.exists(path)`. */
    method Exists(p: TempPath) returns (b: bool)
      ensures b <==> p in live
    {
      b := p in live;
    }

    /** `os.unlink(path)` on a file that exists: removes it and nothing else. */
    method Unlink(p: TempPath)
      requires Valid() && p in live
      modifies this
      ensures Valid()
      ensures live == old(live) - {p} && p !in live && issued == old(issued)
    {
      live := live - {p};
    }
  }
}
