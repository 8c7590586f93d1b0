/** The Python string methods the packet codec relies on: `str.zfill` and `str.strip('0')`. */
module Text {

  function Zeros(n: nat): (r: string)
    ensures |r| == n && forall i :: 0 <= i < n ==> r[i] == '0'
  {
    if n == 0 then "" else "0" + Zeros(n - 1)
  }

  predicate IsSign(c: char) {
    c == '+' || c == '-'
  }

  /** `s.zfill(width)`: pad with '0' up to `width`, after a leading sign if there is one. */
  function ZFill(s: string, width: nat): (r: string)
    ensures |r| == if |s| >= width then |s| else width
    ensures |s| >= width ==> r == s
    ensures |s| < width ==>
      var k := if s != [] && IsSign(s[0]) then 1 else 0;
      r == s[..k] + Zeros(width - |s|) + s[k..]
  {
    if |s| >= width then s
    else if |s| > 0 && IsSign(s[0]) then
      assert s[..1] == [s[0]];
      [s[0]] + Zeros(width - |s|) + s[1..]
    else
      assert s[..0] + Zeros(width - |s|) + s[0..] == Zeros(width - |s|) + s;
      Zeros(width - |s|) + s
  }

  /** Neither end of `s` is the character '0'. */
  predicate NoZeroEnds(s: string) {
    s == [] || (s[0] != '0' && s[|s| - 1] != '0')
  }

  function LStrip0(s: string): (r: string)
    ensures r == [] || r[0] != '0'
    ensures |r| <= |s|
  {
    if |s| > 0 && s[0] == '0' then LStrip0(s[1..]) else s
  }

  function RStrip0(s: string): (r: string)
    ensures r == [] || r[|r| - 1] != '0'
    ensures |r| <= |s|
  {
    if |s| > 0 && s[|s| - 1] == '0' then RStrip0(s[..|s| - 1]) else s
  }

  lemma {:induction false} RStripKeepsFirst(s: string)
    ensures s != [] && s[0] != '0' ==> RStrip0(s) != [] && RStrip0(s)[0] == s[0]
  {
    if |s| > 1 && s[0] != '0' && s[|s| - 1] == '0' {
      RStripKeepsFirst(s[..|s| - 1]);
    }
  }

  /** `s` is its left-stripped form after as many zeros as were removed. */
  lemma {:induction false} LStripShape(s: string)
    ensures s == Zeros(|s| - |LStrip0(s)|) + LStrip0(s)
  {
    if |s| > 0 && s[0] == '0' {
      LStripShape(s[1..]);
      assert Zeros(|s| - |LStrip0(s)|) == "0" + Zeros(|s| - 1 - |LStrip0(s[1..])|);
    }
  }

  /** `s` is its right-stripped form followed by as many zeros as were removed. */
  lemma {:induction false} RStripShape(s: string)
    ensures s == RStrip0(s) + Zeros(|s| - |RStrip0(s)|)
  {
    if |s| > 0 && s[|s| - 1] == '0' {
      var init := s[..|s| - 1];
      RStripShape(init);
      var n := |init| - |RStrip0(init)|;
      assert Zeros(n + 1) == Zeros(n) + "0" by {
        ZerosSnoc(n);
      }
      assert s == init + "0";
    }
  }

  lemma ZerosSnoc(n: nat)
    ensures Zeros(n + 1) == Zeros(n) + "0"
  {
    assert Zeros(n + 1)[..n] == Zeros(n);
  }

  /** `s.strip('0')`: the zeros are removed from both ends, and nothing else. */
  function Strip0(s: string): (r: string)
    ensures NoZeroEnds(r)
    ensures |r| <= |s|
    ensures NoZeroEnds(s) ==> r == s
    ensures exists i, j :: s == Zeros(i) + r + Zeros(j)
  {
    var l := LStrip0(s);
    RStripKeepsFirst(l);
    LStripShape(s);
    RStripShape(l);
    var r := RStrip0(l);
    assert s == Zeros(|s| - |l|) + r + Zeros(|l| - |r|);
    r
  }

  lemma {:induction false} LStripZeros(n: nat, s: string)
    ensures LStrip0(Zeros(n) + s) == LStrip0(s)
  {
    if n > 0 {
      var z := Zeros(n) + s;
      assert z[0] == '0';
      assert z[1..] == Zeros(n - 1) + s;
      assert LStrip0(z) == LStrip0(z[1..]);
      LStripZeros(n - 1, s);
    } else {
      assert Zeros(n) + s == s;
    }
  }

  /** Leading zeros make no difference to `strip('0')`. */
  lemma StripLeadingZeros(n: nat, s: string)
    ensures Strip0(Zeros(n) + s) == Strip0(s)
  {
    LStripZeros(n, s);
  }

  lemma {:induction false} RStripZeros(c: char, n: nat)
    requires c != '0'
    ensures RStrip0([c] + Zeros(n)) == [c]
  {
    if n > 0 {
      assert Zeros(n)[..n - 1] == Zeros(n - 1);
      assert ([c] + Zeros(n))[..n] == [c] + Zeros(n - 1);
      RStripZeros(c, n - 1);
    }
  }

  /** A single non-zero character followed by zeros strips back to itself. */
  lemma StripTrailingZeros(c: char, n: nat)
    requires c != '0'
    ensures Strip0([c] + Zeros(n)) == [c]
  {
    hide Zeros, RStrip0;
    assert LStrip0([c] + Zeros(n)) == [c] + Zeros(n);
    RStripZeros(c, n);
  }
}
