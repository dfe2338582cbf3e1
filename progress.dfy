/**
  The masked progress string of a game: the target word with every letter
  that has not been guessed correctly yet replaced by the mask character.
*/
module Progress {

  const MASK: char := '*'

  /** The all-masked string of length n that a new game starts from. */
  function Mask(n: nat): (r: string)
  {
    seq(n, _ => MASK)
  }

  /** Position i shows target[i] when that character is among the guessed letters and MASK otherwise. */
  function Render(target: string, guessed: seq<char>): (r: string)
  {
    seq(|target|, i requires 0 <= i < |target| => if target[i] in guessed then target[i] else MASK)
  }

  /**
    The loop that turns the list of the target's characters into the progress
    string, rewriting every cell whose character has not been guessed to MASK.
  */
  method ComputeProgress(target: string, guessed: seq<char>) returns (progress: string)
    ensures progress == Render(target, guessed)
  {
    var cells := new char[|target|](i requires 0 <= i < |target| => target[i]);
    var a := 0;
    while a < cells.Length
      invariant 0 <= a <= cells.Length == |target|
      invariant forall k :: 0 <= k < a ==> cells[k] == Render(target, guessed)[k]
      invariant forall k :: a <= k < cells.Length ==> cells[k] == target[k]
    {
      if cells[a] !in guessed {
        cells[a] := MASK;
      }
      a := a + 1;
    }
    progress := cells[..];
  }

  /** The progress string has the target's length and agrees with it at every unmasked position. */
  lemma RenderShape(target: string, guessed: seq<char>)
    ensures |Render(target, guessed)| == |target|
    ensures forall i :: 0 <= i < |target| ==>
              (Render(target, guessed)[i] == target[i] <==> target[i] in guessed || target[i] == MASK)
    ensures forall i :: 0 <= i < |target| ==>
              Render(target, guessed)[i] == target[i] || Render(target, guessed)[i] == MASK
  {
  }

  /** With nothing guessed the progress is all mask. */
  lemma RenderNothingGuessed(target: string)
    ensures Render(target, []) == Mask(|target|)
  {
  }

  /** Only membership in the guessed letters matters, not their order or repetition. */
  lemma RenderByMembership(target: string, g1: seq<char>, g2: seq<char>)
    requires forall c :: c in g1 <==> c in g2
    ensures Render(target, g1) == Render(target, g2)
  {
  }

  /** The progress equals the target exactly when every character of the target is guessed or is MASK. */
  lemma RenderSolvedIff(target: string, guessed: seq<char>)
    ensures Render(target, guessed) == target <==>
            forall i :: 0 <= i < |target| ==> target[i] in guessed || target[i] == MASK
  {
  }

  /** Guessing one more letter only unmasks the positions holding that letter. */
  lemma RenderOneMore(target: string, guessed: seq<char>, c: char)
    ensures forall i :: 0 <= i < |target| ==>
              Render(target, guessed + [c])[i] ==
                (if target[i] == c then target[i] else Render(target, guessed)[i])
  {
  }
}
