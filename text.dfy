/** String helpers: repetition (`str::repeat`) and the `-l` level marker. */
module Text {

  /** `c` repeated `n` times, as `c.to_string().repeat(n)` builds it. */
  function Repeat(c: char, n: nat): (r: string)
    ensures |r| == n
    ensures forall i :: 0 <= i < n ==> r[i] == c
  {
    if n == 0 then [] else Repeat(c, n - 1) + [c]
  }

  /** `n` blanks. */
  function Spaces(n: nat): string {
    Repeat(' ', n)
  }

  /** A token opens a level when it starts with "-l" (`starts_with("-l")`). */
  predicate IsMarker(t: string)
    ensures IsMarker(t) <==> "-l" <= t
  {
    |t| >= 2 && t[0] == '-' && t[1] == 'l'
  }

  /**
   * `trim_start_matches("-l")`: strips the "-l" prefix as many times as it
   * occurs, so "-l-l3" becomes "3". The result no longer starts with "-l".
   */
  function TrimMarkers(t: string): (r: string)
    ensures !IsMarker(r)
    ensures !IsMarker(t) ==> r == t
    decreases |t|
  {
    if IsMarker(t) then TrimMarkers(t[2..]) else t
  }

  /**
   * What `TrimMarkers` leaves is a suffix of its input, and what it removed
   * is "-l" repeated. With `!IsMarker` of the result this pins the result down.
   */
  lemma {:induction false} TrimMarkersSuffix(t: string)
    ensures |TrimMarkers(t)| <= |t| && (|t| - |TrimMarkers(t)|) % 2 == 0
    ensures TrimMarkers(t) == t[|t| - |TrimMarkers(t)|..]
    ensures forall i :: 0 <= i < (|t| - |TrimMarkers(t)|) / 2 ==> t[2 * i .. 2 * i + 2] == "-l"
    decreases |t|
  {
    if IsMarker(t) {
      TrimMarkersSuffix(t[2..]);
      var r := TrimMarkers(t);
      assert t[2..][|t| - 2 - |r|..] == t[|t| - |r|..];
      forall i | 0 <= i < (|t| - |r|) / 2
        ensures t[2 * i .. 2 * i + 2] == "-l"
      {
        if i == 0 {
          assert t[0..2] == "-l";
        } else {
          assert t[2..][2 * (i - 1) .. 2 * (i - 1) + 2] == t[2 * i .. 2 * i + 2];
        }
      }
    }
  }
}
