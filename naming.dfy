/** How SwiftFileOutput.nextFile names an object: the path prefix, the
    sequence format applied to (taskIndex, fileIndex), and the file
    extension, which is made to start with a dot. */
module Naming {

  /** String.format(sequenceFormat, taskIndex, fileIndex). Java's formatting
      rules are not modelled: the formatter is a parameter of the model. */
  type Formatter = (string, int, int) -> string

  predicate StartsWithDot(s: string)
  {
    |s| > 0 && s[0] == '.'
  }

  /** The extension as nextFile appends it: a dot is put in front unless
      one is already there. */
  function NormalizeSuffix(ext: string): (r: string)
    ensures StartsWithDot(r)
    // the configured extension is kept whole at the end of the suffix
    ensures |r| >= |ext| && r[|r| - |ext|..] == ext
    // at most one dot is added, and none when the extension already has one
    ensures |r| == if StartsWithDot(ext) then |ext| else |ext| + 1
  {
    if StartsWithDot(ext) then ext else "." + ext
  }

  /** Normalising twice is normalising once: the dot is never doubled. */
  lemma NormalizeSuffixIdempotent(ext: string)
    ensures NormalizeSuffix(NormalizeSuffix(ext)) == NormalizeSuffix(ext)
  {
  }

  /** The object name built from the configuration and the two indices. */
  function ObjectName(prefix: string, format: Formatter, sequenceFormat: string,
                      taskIndex: int, fileIndex: int, ext: string): (r: string)
  {
    prefix + format(sequenceFormat, taskIndex, fileIndex) + NormalizeSuffix(ext)
  }

  /** A formatter that never gives two index pairs the same text, as the
      default "%03d.%02d" does. */
  ghost predicate Injective(format: Formatter, sequenceFormat: string)
  {
    forall t1, i1, t2, i2 ::
      format(sequenceFormat, t1, i1) == format(sequenceFormat, t2, i2) ==> t1 == t2 && i1 == i2
  }

  /** A name splits back into prefix, formatted indices and suffix: equal
      names under one configuration come from equal formatted indices. */
  lemma {:induction false} ObjectNameSplits(prefix: string, format: Formatter, sequenceFormat: string,
                                            t1: int, i1: int, t2: int, i2: int, ext: string)
    requires ObjectName(prefix, format, sequenceFormat, t1, i1, ext)
             == ObjectName(prefix, format, sequenceFormat, t2, i2, ext)
    ensures format(sequenceFormat, t1, i1) == format(sequenceFormat, t2, i2)
  {
    var n1 := ObjectName(prefix, format, sequenceFormat, t1, i1, ext);
    var n2 := ObjectName(prefix, format, sequenceFormat, t2, i2, ext);
    var f1, f2 := format(sequenceFormat, t1, i1), format(sequenceFormat, t2, i2);
    var sfx := NormalizeSuffix(ext);
    assert |f1| == |f2| by {
      assert |n1| == |prefix| + |f1| + |sfx|;
      assert |n2| == |prefix| + |f2| + |sfx|;
    }
    assert n1[|prefix|..|prefix| + |f1|] == f1;
    assert n2[|prefix|..|prefix| + |f2|] == f2;
  }

  /** With an injective formatter the name determines both indices: object
      names are unique across rotations of one task and across tasks. */
  lemma {:induction false} ObjectNameDeterminesIndices(prefix: string, format: Formatter, sequenceFormat: string,
                                                       t1: int, i1: int, t2: int, i2: int, ext: string)
    requires Injective(format, sequenceFormat)
    requires ObjectName(prefix, format, sequenceFormat, t1, i1, ext)
             == ObjectName(prefix, format, sequenceFormat, t2, i2, ext)
    ensures t1 == t2 && i1 == i2
  {
    ObjectNameSplits(prefix, format, sequenceFormat, t1, i1, t2, i2, ext);
  }
}
