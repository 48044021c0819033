/** File names both programs refuse: Windows device names and the like. */
module Names {
  function UpperChar(c: char): char {
    if 'a' <= c <= 'z' then (c as int - 'a' as int + 'A' as int) as char else c
  }

  /** strings.ToUpper as far as it matters: no other letter becomes one of those
      in a device name. */
  function Upper(s: string): string {
    if s == "" then "" else [UpperChar(s[0])] + Upper(s[1..])
  }

  function TrimRightOf(s: string, cut: string): string {
    if s != "" && s[|s| - 1] in cut then TrimRightOf(s[..|s| - 1], cut) else s
  }

  function BeforeDot(s: string): string {
    if s == "" || s[0] == '.' then "" else [s[0]] + BeforeDot(s[1..])
  }

  predicate Device(name: string) {
    || name in ["CON", "PRN", "AUX", "NUL"]
    || (|name| == 4 && name[..3] in ["COM", "LPT"] && '1' <= name[3] <= '9')
  }

  predicate EndsIn(s: string, c: char) { s != "" && s[|s| - 1] == c }

  lemma {:induction false} UpperAt(s: string)
    ensures |Upper(s)| == |s| && forall i | 0 <= i < |s| :: Upper(s)[i] == UpperChar(s[i])
  {
    if s != "" { UpperAt(s[1..]); }
  }
}
