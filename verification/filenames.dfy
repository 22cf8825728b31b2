/**
 * The save-as naming rule: a project name gets the ".ead" extension unless
 * its lower-cased form already ends in ".ead".
 */
module FileNames {

  const Extension: string := ".ead"

  function LowerChar(c: char): (d: char)
    ensures 'A' <= c <= 'Z' ==> d as int == c as int + 32
    ensures !('A' <= c <= 'Z') ==> d == c
  {
    if 'A' <= c <= 'Z' then (c as int + 32) as char else c
  }

  /** Lower-casing, character by character. */
  function ToLower(s: string): (r: string)
    ensures |r| == |s|
    ensures forall i :: 0 <= i < |s| ==> r[i] == LowerChar(s[i])
  {
    seq(|s|, i requires 0 <= i < |s| => LowerChar(s[i]))
  }

  predicate EndsWith(s: string, suffix: string)
  {
    |suffix| <= |s| && s[|s| - |suffix|..] == suffix
  }

  /** The test of the save-as handler: does the lower-cased name end in ".ead"? */
  predicate HasEadExtension(name: string)
  {
    EndsWith(ToLower(name), Extension)
  }

  /** The name the save-as handler writes to. */
  function WithEadExtension(name: string): (r: string)
    ensures HasEadExtension(r)
    ensures HasEadExtension(name) <==> r == name
    ensures !HasEadExtension(name) <==> r == name + Extension
    ensures r[..|name|] == name
  {
    if HasEadExtension(name) then name
    else
      AppendedExtensionMatches(name);
      name + Extension
  }

  /** Appending ".ead" always yields a name the test accepts. */
  lemma AppendedExtensionMatches(name: string)
    ensures HasEadExtension(name + Extension)
  {
    var r := name + Extension;
    var l := ToLower(r);
    assert l[|l| - 4..] == Extension by {
      forall i | 0 <= i < 4
        ensures l[|l| - 4 + i] == Extension[i]
      {
        assert r[|name| + i] == Extension[i];
      }
    }
  }

  /** Naming a file twice gives the same name as naming it once. */
  lemma WithEadExtensionIdempotent(name: string)
    ensures WithEadExtension(WithEadExtension(name)) == WithEadExtension(name)
  {
  }

  /** An upper-case extension is accepted as it is. */
  lemma UpperCaseExtensionKept()
    ensures WithEadExtension("a.EAD") == "a.EAD"
  {
    var l := ToLower("a.EAD");
    assert l[1] == '.' && l[2] == 'e' && l[3] == 'a' && l[4] == 'd';
    assert l[1..] == ".ead";
  }

  /** A name ending in another extension gets ".ead" after it. */
  lemma OtherExtensionExtended()
    ensures WithEadExtension("a.txt") == "a.txt.ead"
  {
    var l := ToLower("a.txt");
    assert l[2] == 't';
    assert l[1..] != ".ead";
  }
}
