/** What reads of one file give, wherever they are made and however short they come. */
module Reads {
  import opened Bytes

  /** What one read gave: these bytes from this position, none of them at the end of the file. */
  datatype Piece = Piece(at: nat, bytes: seq<byte>)

  /** A file with contents `b` may answer so. */
  predicate From(b: seq<byte>, p: Piece) {
    if p.bytes == [] then p.at >= |b|
    else p.at + |p.bytes| <= |b| && p.bytes == b[p.at..p.at + |p.bytes|]
  }

  ghost predicate AllFrom(b: seq<byte>, pieces: seq<Piece>) {
    forall i :: 0 <= i < |pieces| ==> From(b, pieces[i])
  }

  /** Each read starts where the one before it ended, the first at `at`. */
  predicate Follow(pieces: seq<Piece>, at: nat) {
    pieces == [] || (pieces[0].at == at && Follow(pieces[1..], at + |pieces[0].bytes|))
  }

  function Joined(pieces: seq<Piece>): seq<byte> {
    if pieces == [] then [] else pieces[0].bytes + Joined(pieces[1..])
  }

  /** Reads that follow one another give a slice, and one up to the end if the last gave nothing. */
  lemma {:induction false} JoinedIsSlice(b: seq<byte>, pieces: seq<Piece>, at: nat)
    requires AllFrom(b, pieces) && Follow(pieces, at) && at <= |b|
    ensures at + |Joined(pieces)| <= |b| && Joined(pieces) == b[at..at + |Joined(pieces)|]
    ensures pieces != [] && pieces[|pieces| - 1].bytes == [] ==> Joined(pieces) == b[at..]
  {
    if pieces != [] {
      var p, rest := pieces[0], pieces[1..];
      var mid := at + |p.bytes|;
      assert From(b, p) && AllFrom(b, rest);
      JoinedIsSlice(b, rest, mid);
      hide AllFrom, Follow;
      assert p.bytes == b[at..mid];
      assert b[at..mid] + b[mid..mid + |Joined(rest)|] == b[at..mid + |Joined(rest)|];
      assert b[at..mid] + b[mid..] == b[at..];
      assert rest != [] ==> rest[|rest| - 1] == pieces[|pieces| - 1];
    }
  }

  lemma AllFromSplit(b: seq<byte>, x: seq<Piece>, y: seq<Piece>)
    requires AllFrom(b, x + y)
    ensures AllFrom(b, x) && AllFrom(b, y)
  {
    assert forall i :: 0 <= i < |x| ==> x[i] == (x + y)[i];
    assert forall i :: 0 <= i < |y| ==> y[i] == (x + y)[|x| + i];
  }
}
