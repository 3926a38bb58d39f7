/** Store names inside an object's namespace, and reading them back when sweeping. */
module Names {
  import opened Records
  import opened Text
  import Decimals
  import Peers

  const INT_LIMIT: nat := 0x8000_0000_0000_0000

  /** The file of a fragment: generation and index. */
  function FragmentFile(gen: string, i: nat): string {
    gen + ['.'] + (['f'] + Decimals.Dec(i))
  }

  const META_FILE := "meta"

  /** Where the first ".f" starts, or the length. */
  function FindMark(s: string): (i: nat)
    ensures i <= |s| && (i < |s| ==> i + 1 < |s| && s[i] == '.' && s[i + 1] == 'f')
  {
    if |s| < 2 then |s| else if s[0] == '.' && s[1] == 'f' then 0 else
    1 + FindMark(s[1..])
  }

  predicate Numeral(s: string) {
    s != [] && forall i :: 0 <= i < |s| ==> Decimals.IsDigit(s[i])
  }

  /** A signed decimal integer of 64 bits. */
  function Atoi(s: string): Option<int> {
    var digits := if s != [] && (s[0] == '-' || s[0] == '+') then s[1..] else s;
    if !Numeral(digits) then None
    else
      var n: int := Decimals.Value(digits);
      if s[0] == '-' then (if n <= INT_LIMIT then Some(-n) else None)
      else if n < INT_LIMIT then Some(n) else None
  }

  /** Generation and index of a fragment file name; none when it is not one. */
  function ParseFragmentFile(file: string): Option<(string, nat)> {
    var m := FindMark(file);
    if m == |file| || m == 0 then None
    else
      var n := Atoi(file[m + 2..]);
      if n.None? || n.value < 0 then None else Some((file[..m], n.value))
  }

  lemma {:induction false} FindMarkAt(gen: string, rest: string)
    requires Free(gen, '.')
    ensures FindMark(gen + ['.'] + (['f'] + rest)) == |gen|
  {
    var s := gen + ['.'] + (['f'] + rest);
    if gen != [] {
      assert s[1..] == gen[1..] + ['.'] + (['f'] + rest);
      FindMarkAt(gen[1..], rest);
    }
  }

  /** The sweep reads back exactly what the writer named: generations are hexadecimal text,
      so they are not empty and contain no dot. */
  lemma FragmentRoundTrip(gen: string, i: nat)
    requires gen != "" && Free(gen, '.') && i < INT_LIMIT
    ensures ParseFragmentFile(FragmentFile(gen, i)) == Some((gen, i))
  {
    var file, num := FragmentFile(gen, i), Decimals.Dec(i);
    FindMarkAt(gen, num);
    assert file[..|gen|] == gen && file[|gen| + 2..] == num;
    Decimals.ValueDec(i);
    assert Decimals.IsDigit(num[0]);
  }

  /** A record is never taken for a fragment. */
  lemma MetaIsNoFragment()
    ensures ParseFragmentFile(META_FILE) == None
  {
    assert META_FILE[1..] == "eta" && "eta"[1..] == "ta" && "ta"[1..] == "a";
    assert FindMark("a") == 1 && FindMark("ta") == 2 && FindMark("eta") == 3;
  }

  /** How a name in the object's namespace is understood. */
  function NameOf(file: string): Peers.Name {
    if file == META_FILE then Peers.Meta
    else
      var p := ParseFragmentFile(file);
      if p.Some? then Peers.Frag(p.value.0, p.value.1) else Peers.Unknown(file)
  }

  /** Different fragments have different files, and none is the record's. */
  lemma FilesApart(gen: string, i: nat, gen': string, i': nat)
    requires gen != "" && Free(gen, '.') && i < INT_LIMIT && gen' != "" && Free(gen', '.') && i' < INT_LIMIT
    ensures FragmentFile(gen, i) == FragmentFile(gen', i') <==> gen == gen' && i == i'
    ensures NameOf(FragmentFile(gen, i)) == Peers.Frag(gen, i)
  {
    FragmentRoundTrip(gen, i);
    FragmentRoundTrip(gen', i');
    MetaIsNoFragment();
  }
}
