/** Go slices that start at the beginning of their backing array, and append. */
module Slices {
  datatype Slice<T> = Slice(backing: array<T>, len: nat) {
    ghost predicate Valid() {
      len <= backing.Length
    }

    /** The elements a holder of the slice sees. */
    ghost function Visible(): seq<T>
      requires Valid()
      reads backing
    {
      backing[..len]
    }
  }

  /** The backing array behind the result of append, when a new one has filler as further room. */
  function Appended<T>(backing: seq<T>, len: nat, x: T, filler: seq<T>): (after: seq<T>)
    requires len <= |backing|
    ensures |after| > len && after[..len + 1] == backing[..len] + [x]
  {
    if len < |backing| then backing[len := x] else backing + [x] + filler
  }

  /**
   append(s, x): in place when there is spare capacity, else into a new array with some larger
   capacity. grown is that capacity when it suffices.
   */
  method Append<T(0)>(s: Slice<T>, x: T, grown: nat) returns (r: Slice<T>)
    requires s.Valid()
    modifies s.backing
    ensures r.Valid() && r.Visible() == old(s.Visible()) + [x]
    ensures s.Valid() && s.Visible() == old(s.Visible())
    ensures if s.len < s.backing.Length then r.backing == s.backing else fresh(r.backing) && s.backing[..] == old(s.backing[..])
    ensures exists filler :: r.backing[..] == Appended(old(s.backing[..]), s.len, x, filler)
  {
    if s.len < s.backing.Length {
      s.backing[s.len] := x;
      r := Slice(s.backing, s.len + 1);
      assert s.Visible() == old(s.Visible());
      assert r.Visible() == s.Visible() + [x];
      assert r.backing[..] == Appended(old(s.backing[..]), s.len, x, []);
    } else {
      var room := if grown > s.len then grown else s.len + 1;
      var backing := new T[room];
      var i := 0;
      while i < s.len
        invariant i <= s.len
        invariant backing[..i] == s.backing[..i]
        invariant s.backing[..] == old(s.backing[..])
      {
        backing[i] := s.backing[i];
        i := i + 1;
      }
      backing[s.len] := x;
      r := Slice(backing, s.len + 1);
      assert s.Visible() == s.backing[..][..s.len];
      assert r.Visible() == s.Visible() + [x];
      assert r.backing[..] == Appended(old(s.backing[..]), s.len, x, backing[s.len + 1..]);
    }
  }
}
