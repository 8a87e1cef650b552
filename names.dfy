/** Path.GetExtension and Path.GetFileNameWithoutExtension on a leaf name. */
module FileNames {

  /** String.LastIndexOf(c): the last position of `c` in `s`, or -1. */
  function LastIndexOf(s: string, c: char): (r: int)
    ensures -1 <= r < |s|
    ensures r == -1 ==> forall j :: 0 <= j < |s| ==> s[j] != c
    ensures r >= 0 ==> s[r] == c && forall j :: r < j < |s| ==> s[j] != c
    decreases |s|
  {
    if |s| == 0 then -1
    else if s[|s| - 1] == c then |s| - 1
    else LastIndexOf(s[..|s| - 1], c)
  }

  /** Path.GetExtension: from the last dot to the end, dot included; empty when there is no dot
      or when the dot is the last character. */
  function GetExtension(name: string): string
  {
    var i := LastIndexOf(name, '.');
    if i < 0 || i == |name| - 1 then "" else name[i..]
  }

  /** Path.GetFileNameWithoutExtension: everything before the last dot. */
  function GetFileNameWithoutExtension(name: string): string
  {
    var i := LastIndexOf(name, '.');
    if i < 0 then name else name[..i]
  }

  /** The extension is empty, or it is a suffix of the name that starts with its only dot. */
  lemma ExtensionIsLastDotSuffix(name: string)
    ensures var ext := GetExtension(name);
      ext == "" ||
      (|ext| >= 2 && ext[0] == '.' && ext == name[|name| - |ext|..] &&
       forall j :: 1 <= j < |ext| ==> ext[j] != '.')
  {
    var i := LastIndexOf(name, '.');
    if i >= 0 && i != |name| - 1 {
      var ext := name[i..];
      forall j | 1 <= j < |ext| ensures ext[j] != '.' {
        assert ext[j] == name[i + j];
      }
    }
  }

  /** Root and extension put back together give the name, except that a trailing dot is dropped. */
  lemma RootAndExtensionRebuildName(name: string)
    ensures |name| > 0 && name[|name| - 1] == '.' ==>
      GetFileNameWithoutExtension(name) == name[..|name| - 1] && GetExtension(name) == ""
    ensures !(|name| > 0 && name[|name| - 1] == '.') ==>
      GetFileNameWithoutExtension(name) + GetExtension(name) == name
  {
    var i := LastIndexOf(name, '.');
    if i >= 0 {
      assert name[..i] + name[i..] == name;
    }
  }

  /** Root and extension never take more characters than the name has. */
  lemma RootAndExtensionFit(name: string)
    ensures |GetFileNameWithoutExtension(name)| + |GetExtension(name)| <= |name|
  {
  }

  /** The cases of Path.GetExtension that the library's own tests pin down. */
  lemma ExtensionExamples()
    ensures GetExtension("test.txt") == ".txt"
    ensures GetExtension(".gitignore") == ".gitignore"
    ensures GetExtension("README") == ""
  {
    assert LastIndexOf("test.txt", '.') == 4 by {
      assert "test.txt"[..7] == "test.tx";
      assert "test.tx"[..6] == "test.t";
      assert "test.t"[..5] == "test.";
    }
    assert LastIndexOf(".gitignore", '.') == 0 by {
      assert forall j :: 1 <= j < 10 ==> ".gitignore"[j] != '.';
      var s := ".gitignore";
      assert s[..9] == ".gitignor";
      assert s[..8] == ".gitigno";
      assert s[..7] == ".gitign";
      assert s[..6] == ".gitig";
      assert s[..5] == ".giti";
      assert s[..4] == ".git";
      assert s[..3] == ".gi";
      assert s[..2] == ".g";
      assert s[..1] == ".";
    }
    assert LastIndexOf("README", '.') == -1;
  }
}

/** String.Format of a non-negative int in the invariant culture, and its inverse. */
module Decimal {

  predicate IsDigit(c: char)
  {
    '0' <= c <= '9'
  }

  function DigitChar(d: nat): (c: char)
    requires d < 10
    ensures IsDigit(c)
  {
    ('0' as int + d) as char
  }

  /** The shortest decimal spelling of `n`, most significant digit first. */
  function NatToString(n: nat): (s: string)
    ensures |s| >= 1 && forall i :: 0 <= i < |s| ==> IsDigit(s[i])
    decreases n
  {
    if n < 10 then [DigitChar(n)] else NatToString(n / 10) + [DigitChar(n % 10)]
  }

  /** Reads a string of digits back as a number. */
  function ParseNat(s: string): nat
    requires forall i :: 0 <= i < |s| ==> IsDigit(s[i])
    decreases |s|
  {
    if |s| == 0 then 0
    else
      assert IsDigit(s[|s| - 1]);
      10 * ParseNat(s[..|s| - 1]) + (s[|s| - 1] as int - '0' as int)
  }

  /** Reading back a formatted number gives the number. */
  lemma {:induction false} ParseNatToString(n: nat)
    ensures ParseNat(NatToString(n)) == n
    decreases n
  {
    var s := NatToString(n);
    if n >= 10 {
      ParseNatToString(n / 10);
      assert s[..|s| - 1] == NatToString(n / 10);
    } else {
      assert s[..0] == [];
    }
  }

  /** Different numbers are spelled differently. */
  lemma NatToStringInjective(m: nat, n: nat)
    requires NatToString(m) == NatToString(n)
    ensures m == n
  {
    ParseNatToString(m);
    ParseNatToString(n);
  }
}
