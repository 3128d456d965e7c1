/** The records of `cadastro/models.py` whose methods hold logic: a test
    (`Prova`) keeps the list of its question ids as JSON text, and its answer
    key (`GabaritoProva`) keeps a dictionary from question id to letter as
    JSON text and grades a student's answers against it. JSON itself is not
    modelled: the text is produced and read by an encoder and a decoder given
    as parameters, the decoder answering `None` where `json.loads` raises. */
module Models {
  import opened Base

  /** An encoder and the decoder that reads its output back. */
  datatype Codec<!T> = Codec(encode: T -> string, decode: string -> Option<T>)

  /** The decoder recovers `v` from the encoder's text, as `json.loads`
      recovers a list of numbers or a dictionary of strings from
      `json.dumps`. */
  predicate RoundTrips<T(==)>(c: Codec<T>, v: T) {
    c.decode(c.encode(v)) == Some(v)
  }

  /** A question id and the letter the key holds for it. */
  type AnswerKey = map<string, string>

  /** A test and the ids of its questions, kept as text. */
  class Prova {
    var questoesIds: string

    constructor (text: string)
      ensures questoesIds == text
    {
      questoesIds := text;
    }

    /** `get_questoes_ids_list`: the decoded list, or `[]` when the text
        does not decode. */
    function GetQuestoesIdsList(codec: Codec<seq<int>>): (ids: seq<int>)
      reads this
      ensures codec.decode(questoesIds) == None ==> ids == []
      ensures ids != [] ==> codec.decode(questoesIds) == Some(ids)
      ensures codec.decode(questoesIds).Some? ==> ids == codec.decode(questoesIds).value
    {
      match codec.decode(questoesIds)
      case Some(l) => l
      case None => []
    }

    /** `set_questoes_ids_list`: reading the list back gives `ids`. */
    method SetQuestoesIdsList(ids: seq<int>, codec: Codec<seq<int>>)
      modifies this
      ensures questoesIds == codec.encode(ids)
      ensures RoundTrips(codec, ids) ==> GetQuestoesIdsList(codec) == ids
    {
      questoesIds := codec.encode(ids);
    }
  }

  /** The answer key of a test, kept as text. */
  class GabaritoProva {
    var respostasCorretas: string

    constructor (text: string)
      ensures respostasCorretas == text
    {
      respostasCorretas := text;
    }

    /** `get_respostas_dict`: the decoded dictionary, or `{}` when the text
        does not decode. */
    function GetRespostasDict(codec: Codec<AnswerKey>): (key: AnswerKey)
      reads this
      ensures codec.decode(respostasCorretas) == None ==> key == map[]
      ensures key != map[] ==> codec.decode(respostasCorretas) == Some(key)
      ensures codec.decode(respostasCorretas).Some? ==> key == codec.decode(respostasCorretas).value
    {
      match codec.decode(respostasCorretas)
      case Some(d) => d
      case None => map[]
    }

    /** `set_respostas_dict`: reading the key back gives `key`. */
    method SetRespostasDict(key: AnswerKey, codec: Codec<AnswerKey>)
      modifies this
      ensures respostasCorretas == codec.encode(key)
      ensures RoundTrips(codec, key) ==> GetRespostasDict(codec) == key
    {
      respostasCorretas := codec.encode(key);
    }

    /** `calcular_nota`: the loop over the key counting the questions the
        student answered right. */
    method CalcularNota(respostasAluno: map<string, string>, codec: Codec<AnswerKey>)
        returns (acertos: nat, totalQuestoes: nat, notaPercentual: real)
      ensures var key := GetRespostasDict(codec);
              && acertos == |CorrectIds(key, respostasAluno)|
              && totalQuestoes == |key.Keys|
              && notaPercentual == Percentual(acertos, totalQuestoes)
    {
      var gabarito := GetRespostasDict(codec);
      totalQuestoes := |gabarito|;
      acertos := CountCorrect(gabarito, respostasAluno);
      if totalQuestoes > 0 {
        notaPercentual := acertos as real / totalQuestoes as real * 100.0;
      } else {
        notaPercentual := 0.0;
      }
    }
  }

  /** The counting loop of `calcular_nota`: one more for each question of the
      key whose answer matches, ignoring case. */
  method CountCorrect(gabarito: AnswerKey, respostasAluno: map<string, string>) returns (acertos: nat)
    ensures acertos == |CorrectIds(gabarito, respostasAluno)|
  {
    ghost var correct := CorrectIds(gabarito, respostasAluno);
    acertos := 0;
    var remaining := gabarito.Keys;
    ghost var counted: set<string> := {};
    while remaining != {}
      invariant remaining <= gabarito.Keys
      invariant counted == correct - remaining
      invariant acertos == |counted|
      decreases |remaining|
    {
      var questaoId :| questaoId in remaining;
      var respostaAluno := Lookup(respostasAluno, questaoId);
      ghost var right := Upper(respostaAluno) == Upper(gabarito[questaoId]);
      assert right <==> questaoId in correct;
      CountStep(correct, remaining, counted, questaoId);
      if Upper(respostaAluno) == Upper(gabarito[questaoId]) {
        acertos := acertos + 1;
        counted := counted + {questaoId};
      }
      remaining := remaining - {questaoId};
    }
    assert correct - {} == correct;
  }

  /** Visiting question `q` keeps the count equal to the right answers seen. */
  lemma CountStep(correct: set<string>, remaining: set<string>, counted: set<string>, q: string)
    requires counted == correct - remaining && q in remaining
    ensures q !in counted
    ensures q in correct ==> counted + {q} == correct - (remaining - {q})
    ensures q !in correct ==> counted == correct - (remaining - {q})
  {
  }

  /** `respostas_aluno.get(questao_id, '')`. */
  function Lookup(answers: map<string, string>, q: string): string {
    if q in answers then answers[q] else ""
  }

  /** The student's answer to `q` equals the key's, ignoring case. */
  predicate IsCorrect(key: AnswerKey, answers: map<string, string>, q: string)
    requires q in key
  {
    Upper(Lookup(answers, q)) == Upper(key[q])
  }

  /** The questions of the key answered right. */
  function CorrectIds(key: AnswerKey, answers: map<string, string>): (ids: set<string>)
    ensures ids <= key.Keys
  {
    set q | q in key && IsCorrect(key, answers, q)
  }

  /** `acertos / total * 100`, or 0 for an empty key. */
  function Percentual(acertos: nat, total: nat): real {
    if total > 0 then acertos as real / total as real * 100.0 else 0.0
  }

  lemma SubsetCard(a: set<string>, b: set<string>)
    requires a <= b
    ensures |a| <= |b|
    ensures |a| == |b| ==> a == b
  {
    SubsetCardStrict(a, b);
    if a != b {
      assert !(forall x :: x in a <==> x in b);
      assert exists x :: x in b && x !in a;
      var x :| x in b && x !in a;
      assert a <= b - {x};
      SubsetCardStrict(a, b - {x});
    }
  }

  lemma {:induction false} SubsetCardStrict(a: set<string>, b: set<string>)
    requires a <= b
    ensures |a| <= |b|
  {
    if a != {} {
      var x :| x in a;
      SubsetCardStrict(a - {x}, b - {x});
    }
  }

  /** The count of right answers lies between 0 and the size of the key, and
      the percentage between 0 and 100. */
  lemma ScoreBounds(key: AnswerKey, answers: map<string, string>)
    ensures |CorrectIds(key, answers)| <= |key.Keys|
    ensures 0.0 <= Percentual(|CorrectIds(key, answers)|, |key.Keys|) <= 100.0
  {
    SubsetCard(CorrectIds(key, answers), key.Keys);
  }

  /** The percentage is 100 exactly when the key is non-empty and every
      question of the key is answered right; an empty key gives 0. */
  lemma FullMarks(key: AnswerKey, answers: map<string, string>)
    ensures Percentual(|CorrectIds(key, answers)|, |key.Keys|) == 100.0 <==>
              key != map[] && forall q :: q in key ==> IsCorrect(key, answers, q)
    ensures key == map[] ==> Percentual(|CorrectIds(key, answers)|, |key.Keys|) == 0.0
  {
    var c := CorrectIds(key, answers);
    SubsetCard(c, key.Keys);
    if key != map[] {
      var q :| q in key;
      assert q in key.Keys;
      PercentualFull(|c|, |key.Keys|);
      if forall q :: q in key ==> IsCorrect(key, answers, q) {
        assert c == key.Keys;
      }
      if |c| == |key.Keys| {
        assert c == key.Keys;
      }
    } else {
      assert key.Keys == {};
    }
  }

  /** For a non-empty key the percentage is 100 exactly when every question counts. */
  lemma PercentualFull(acertos: nat, total: nat)
    requires 0 < total
    ensures Percentual(acertos, total) == 100.0 <==> acertos == total
  {
    var x := acertos as real / total as real;
    assert x * total as real == acertos as real;
    assert x * 100.0 == 100.0 <==> x == 1.0;
  }

  /** Correcting one wrong answer to the key's letter adds exactly one. */
  lemma FixingOneAnswer(key: AnswerKey, answers: map<string, string>, q: string)
    requires q in key && !IsCorrect(key, answers, q)
    ensures |CorrectIds(key, answers[q := key[q]])| == |CorrectIds(key, answers)| + 1
  {
    var after := CorrectIds(key, answers[q := key[q]]);
    var before := CorrectIds(key, answers);
    forall p | p in key ensures p != q ==> (IsCorrect(key, answers[q := key[q]], p) <==> IsCorrect(key, answers, p)) {
    }
    assert after == before + {q};
  }

  /** Only the questions of the key count: an answer to a question outside
      the key changes nothing. */
  lemma ExtraAnswersIgnored(key: AnswerKey, answers: map<string, string>, q: string, a: string)
    requires q !in key
    ensures CorrectIds(key, answers[q := a]) == CorrectIds(key, answers)
  {
  }

  /** Case does not matter: an answer written in lower case counts when its
      upper case is the key's letter. */
  lemma CaseInsensitive(key: AnswerKey, answers: map<string, string>, q: string)
    requires q in key
    ensures IsCorrect(key, answers[q := Lower(key[q])], q)
  {
    var k := key[q];
    assert forall i :: 0 <= i < |k| ==> UpperChar(LowerChar(k[i])) == UpperChar(k[i]);
    assert Upper(Lower(k)) == Upper(k);
  }
}
