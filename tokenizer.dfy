/**
 * The tokenizer that fills in a comment's words, complex words, sentences and syllables. The sentence
 * segmenter (nltk's `sent_tokenize`) is an outside capability and is passed in.
 */
module Tokenizer {
  import opened Wrappers
  import opened Text
  import opened Seqs
  import opened TokenPatterns
  import CommentObject

  class Tokenizer {
    var words: seq<string>
    var complexWords: seq<string>
    var sentences: seq<string>
    var syllables: seq<string>

    constructor ()
      ensures words == [] && complexWords == [] && sentences == [] && syllables == []
    {
      words, complexWords, sentences, syllables := [], [], [], [];
    }

    /**
     * Tokenizes the comment's processed text. `words` and `sentences` are replaced, the syllables and
     * complex words of the new words are appended to what the tokenizer already held, and the four
     * lists are then written into the comment.
     */
    method GetStats(comment: CommentObject.Comment, sentTokenize: string -> seq<string>)
      requires comment.processedText.Some?
      modifies this, comment`words, comment`complexWords, comment`sentences, comment`syllables
      ensures words == Words(old(comment.processedText.value))
      ensures sentences == sentTokenize(old(comment.processedText.value))
      ensures syllables == old(syllables) + FlatMap(words, SyllablesOf)
      ensures complexWords == old(complexWords) + Filter(words, IsComplex)
      ensures comment.words == Some(words) && comment.complexWords == Some(complexWords)
      ensures comment.sentences == Some(sentences) && comment.syllables == Some(syllables)
    {
      var line := comment.processedText.value;
      var rawWords := RawWords(Strip(Lower(line)));
      var ws := Filter(rawWords, KeepWord);
      var sents := sentTokenize(line);
      var allSyl, complex := syllables, complexWords;
      ghost var syl0, complex0 := syllables, complexWords;
      var i := 0;
      while i < |ws|
        invariant 0 <= i <= |ws|
        invariant allSyl == syl0 + FlatMap(ws[..i], SyllablesOf)
        invariant complex == complex0 + Filter(ws[..i], IsComplex)
        modifies {}
      {
        var word := ws[i];
        var syl := Groups(Lower(word));
        // a trailing lone "e" is glued onto the group before it
        syl := MergeTrailingE(syl);
        FlatMapExtend(syl0, allSyl, ws, i, SyllablesOf);
        FilterExtend(complex0, complex, ws, i, IsComplex);
        allSyl := allSyl + syl;
        if |syl| >= 3 {
          complex := complex + [word];
        }
        i := i + 1;
      }
      assert ws[..i] == ws;
      words, sentences, syllables, complexWords := ws, sents, allSyl, complex;
      comment.words, comment.complexWords, comment.sentences, comment.syllables :=
        Some(ws), Some(complex), Some(sents), Some(allSyl);
    }
  }

}
