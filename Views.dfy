/** The decision logic of `cadastro/views.py`. The views read one stored
    dictionary with the lists `usuarios`, `alunos`, `disciplinas` and
    `questoes`, change it in place and write it back; here that dictionary
    is the class `Dados`, whose methods are the views that change it, and
    the rules they apply (validation, enrolment, the pass/fail status, the
    question filters and the ordering of the student list) are functions
    with lemmas beside them. The logged-in professor is the parameter `cpf`,
    and an absent request field or session value is the empty string. */
module Views {
  import opened Base
  import opened Sorting

  datatype Usuario = Usuario(cpf: string, nome: string, rg: string, email: string, senha: string)

  /** A student registered by a professor. */
  datatype Aluno = Aluno(matricula: string, nome: string, cpfProfessor: string)

  /** A student enrolled in a discipline, with the four grades. */
  datatype Inscrito = Inscrito(matricula: string, nome: string,
                               nota1va: Option<real>, nota2va: Option<real>,
                               nota3va: Option<real>, notaFinal: Option<real>)

  datatype Disciplina = Disciplina(nome: string, ano: string, cpfProfessor: string,
                                   alunos: seq<Inscrito>)

  datatype Questao = Questao(id: int, enunciado: string, disciplinaNome: string,
                             cpfProfessor: string)

  // ---------------------------------------------------------------------
  // Registration of users (`cadastro_usuario`)

  datatype ErroUsuario = CpfInvalido | RgInvalido | CpfJaCadastrado

  predicate CpfCadastrado(usuarios: seq<Usuario>, cpf: string) {
    exists i :: 0 <= i < |usuarios| && usuarios[i].cpf == cpf
  }

  predicate CpfsDistintos(usuarios: seq<Usuario>) {
    forall i, j :: 0 <= i < j < |usuarios| ==> usuarios[i].cpf != usuarios[j].cpf
  }

  /** The three checks of a new user, in the order they are made: the CPF
      must be 11 digits, then the RG 7 digits, then the CPF must be new. */
  function ValidarUsuario(usuarios: seq<Usuario>, cpf: string, rg: string): (erro: Option<ErroUsuario>)
    ensures erro == None <==>
              |cpf| == 11 && IsDigits(cpf) && |rg| == 7 && IsDigits(rg) && !CpfCadastrado(usuarios, cpf)
    ensures erro == Some(CpfInvalido) <==> !(|cpf| == 11 && IsDigits(cpf))
    ensures erro == Some(RgInvalido) <==> |cpf| == 11 && IsDigits(cpf) && !(|rg| == 7 && IsDigits(rg))
  {
    if |cpf| != 11 || !IsDigits(cpf) then Some(CpfInvalido)
    else if |rg| != 7 || !IsDigits(rg) then Some(RgInvalido)
    else if CpfCadastrado(usuarios, cpf) then Some(CpfJaCadastrado)
    else None
  }

  /** A user accepted by the checks keeps the stored CPFs pairwise distinct,
      and the list grows by exactly that user. */
  lemma RegistrationKeepsCpfsDistinct(usuarios: seq<Usuario>, u: Usuario)
    requires CpfsDistintos(usuarios) && ValidarUsuario(usuarios, u.cpf, u.rg) == None
    ensures CpfsDistintos(usuarios + [u])
    ensures |usuarios + [u]| == |usuarios| + 1 && CpfCadastrado(usuarios + [u], u.cpf)
  {
    var r := usuarios + [u];
    assert r[|usuarios|] == u;
    forall i, j | 0 <= i < j < |r| ensures r[i].cpf != r[j].cpf {
      if j == |usuarios| {
        assert r[i] == usuarios[i];
      } else {
        assert r[i] == usuarios[i] && r[j] == usuarios[j];
      }
    }
  }

  // ---------------------------------------------------------------------
  // Registration of students (`cadastrar_aluno`)

  datatype ErroAluno = MatriculaInvalida | NomeComDigito | AlunoJaCadastrado

  /** The professor already has a student with this matrícula. */
  predicate AlunoCadastrado(alunos: seq<Aluno>, matricula: string, cpf: string) {
    exists i :: 0 <= i < |alunos| && alunos[i].matricula == matricula && alunos[i].cpfProfessor == cpf
  }

  /** No two students share both matrícula and professor. */
  predicate AlunosDistintos(alunos: seq<Aluno>) {
    forall i, j :: 0 <= i < j < |alunos| ==>
      !(alunos[i].matricula == alunos[j].matricula && alunos[i].cpfProfessor == alunos[j].cpfProfessor)
  }

  /** The three checks of a new student, in order: an 11-digit matrícula, a
      name without digits, and a (matrícula, professor) pair not yet
      stored. */
  function ValidarAluno(alunos: seq<Aluno>, matricula: string, nome: string, cpf: string): (erro: Option<ErroAluno>)
    ensures erro == None <==>
              |matricula| == 11 && IsDigits(matricula) && !HasDigit(nome)
              && !AlunoCadastrado(alunos, matricula, cpf)
    ensures erro == Some(MatriculaInvalida) <==> !(|matricula| == 11 && IsDigits(matricula))
    ensures erro == Some(NomeComDigito) <==> |matricula| == 11 && IsDigits(matricula) && HasDigit(nome)
  {
    if |matricula| != 11 || !IsDigits(matricula) then Some(MatriculaInvalida)
    else if HasDigit(nome) then Some(NomeComDigito)
    else if AlunoCadastrado(alunos, matricula, cpf) then Some(AlunoJaCadastrado)
    else None
  }

  /** An accepted student keeps the (matrícula, professor) pairs distinct. */
  lemma StudentRegistrationKeepsPairsDistinct(alunos: seq<Aluno>, a: Aluno)
    requires AlunosDistintos(alunos) && ValidarAluno(alunos, a.matricula, a.nome, a.cpfProfessor) == None
    ensures AlunosDistintos(alunos + [a])
    ensures AlunoCadastrado(alunos + [a], a.matricula, a.cpfProfessor)
  {
    var r := alunos + [a];
    assert r[|alunos|] == a;
    forall i, j | 0 <= i < j < |r|
      ensures !(r[i].matricula == r[j].matricula && r[i].cpfProfessor == r[j].cpfProfessor)
    {
      if j == |alunos| {
        assert r[i] == alunos[i];
      } else {
        assert r[i] == alunos[i] && r[j] == alunos[j];
      }
    }
  }

  // ---------------------------------------------------------------------
  // Enrolment (`detalhe_disciplina`, POST)

  function DaProfessor(cpf: string): Disciplina -> bool {
    (d: Disciplina) => d.cpfProfessor == cpf
  }

  function AlunoDoProfessor(cpf: string): Aluno -> bool {
    (a: Aluno) => a.cpfProfessor == cpf
  }

  /** The positions in `ds` of the professor's disciplines: the page's
      `disciplinas[disciplina_id]` is the stored discipline at position
      `Posicoes(ds, cpf)[disciplina_id]`, and changing it changes that one. */
  function Posicoes(ds: seq<Disciplina>, cpf: string): (ps: seq<nat>)
    ensures forall k :: 0 <= k < |ps| ==> ps[k] < |ds|
  {
    PosicoesDesde(ds, cpf, 0)
  }

  /** The positions from `i` onwards of the professor's disciplines. */
  function PosicoesDesde(ds: seq<Disciplina>, cpf: string, i: nat): (ps: seq<nat>)
    requires i <= |ds|
    ensures forall k :: 0 <= k < |ps| ==> i <= ps[k] < |ds|
    decreases |ds| - i
  {
    if i == |ds| then []
    else (if ds[i].cpfProfessor == cpf then [i] else []) + PosicoesDesde(ds, cpf, i + 1)
  }

  /** Position `k` of `Posicoes` holds the professor's `k`-th discipline. */
  lemma PosicoesFilter(ds: seq<Disciplina>, cpf: string)
    ensures var ps := Posicoes(ds, cpf);
            && |ps| == |Filter(ds, DaProfessor(cpf))|
            && forall k :: 0 <= k < |ps| ==> ds[ps[k]] == Filter(ds, DaProfessor(cpf))[k]
  {
    PosicoesDesdeFilter(ds, cpf, 0);
    assert ds[0..] == ds;
  }

  lemma {:induction false} PosicoesDesdeFilter(ds: seq<Disciplina>, cpf: string, i: nat)
    requires i <= |ds|
    ensures var ps := PosicoesDesde(ds, cpf, i);
            var f := Filter(ds[i..], DaProfessor(cpf));
            && |ps| == |f|
            && forall k :: 0 <= k < |ps| ==> ds[ps[k]] == f[k]
    decreases |ds| - i
  {
    if i < |ds| {
      PosicoesDesdeFilter(ds, cpf, i + 1);
      var rest := PosicoesDesde(ds, cpf, i + 1);
      var frest := Filter(ds[i + 1..], DaProfessor(cpf));
      var head := if ds[i].cpfProfessor == cpf then [i] else [];
      var fhead := if ds[i].cpfProfessor == cpf then [ds[i]] else [];
      assert ds[i..][0] == ds[i] && ds[i..][1..] == ds[i + 1..];
      assert DaProfessor(cpf)(ds[i]) == (ds[i].cpfProfessor == cpf);
      assert Filter(ds[i..], DaProfessor(cpf)) == fhead + frest;
      assert PosicoesDesde(ds, cpf, i) == head + rest;
      assert |head| == |fhead|;
      forall k | 0 <= k < |head| ensures ds[head[k]] == fhead[k] { }
    }
  }

  /** The matrícula is already enrolled. */
  predicate Matriculado(inscritos: seq<Inscrito>, matricula: string) {
    exists i :: 0 <= i < |inscritos| && inscritos[i].matricula == matricula
  }

  predicate MatriculasDistintas(inscritos: seq<Inscrito>) {
    forall i, j :: 0 <= i < j < |inscritos| ==> inscritos[i].matricula != inscritos[j].matricula
  }

  /** `next((a for a in alunos if a['matricula'] == matricula), None)` over
      the professor's students: the first student of the professor with
      that matrícula. */
  function PrimeiroAluno(alunos: seq<Aluno>, cpf: string, matricula: string): (r: Option<Aluno>)
    ensures r.None? <==>
              forall i :: 0 <= i < |alunos| ==> !(alunos[i].matricula == matricula && alunos[i].cpfProfessor == cpf)
    ensures r.Some? ==>
              exists i :: 0 <= i < |alunos| && alunos[i] == r.value
                && r.value.matricula == matricula && r.value.cpfProfessor == cpf
                && forall j :: 0 <= j < i ==> !(alunos[j].matricula == matricula && alunos[j].cpfProfessor == cpf)
  {
    if alunos == [] then None
    else if alunos[0].matricula == matricula && alunos[0].cpfProfessor == cpf then Some(alunos[0])
    else
      var r := PrimeiroAluno(alunos[1..], cpf, matricula);
      assert forall i :: 0 < i < |alunos| ==> alunos[1..][i - 1] == alunos[i];
      r
  }

  /** The new enrolment: the student's matrícula and name, no grades. */
  function NovoInscrito(a: Aluno): Inscrito {
    Inscrito(a.matricula, a.nome, None, None, None, None)
  }

  /** The stored disciplines after enrolling `matricula` in the professor's
      discipline number `id`, or `None` when nothing is added. */
  function Matricular(ds: seq<Disciplina>, alunos: seq<Aluno>, cpf: string, id: int, matricula: string)
    : Option<seq<Disciplina>>
  {
    var ps := Posicoes(ds, cpf);
    if 0 <= id < |ps| && matricula != "" && !Matriculado(ds[ps[id]].alunos, matricula) then
      match PrimeiroAluno(alunos, cpf, matricula)
      case Some(a) => Some(ds[ps[id] := ds[ps[id]].(alunos := ds[ps[id]].alunos + [NovoInscrito(a)])])
      case None => None
    else None
  }

  /** Enrolment succeeds exactly when the discipline index is in range, the
      matrícula is given, not yet enrolled there, and belongs to one of the
      professor's students; it then appends to that one discipline an entry
      with that matrícula, the student's name and all four grades absent,
      and changes nothing else. */
  lemma EnrolmentSpec(ds: seq<Disciplina>, alunos: seq<Aluno>, cpf: string, id: int, matricula: string)
    ensures var mine := Filter(ds, DaProfessor(cpf));
            Matricular(ds, alunos, cpf, id, matricula).Some? <==>
              && 0 <= id < |mine| && matricula != ""
              && !Matriculado(mine[id].alunos, matricula)
              && AlunoCadastrado(alunos, matricula, cpf)
    ensures Matricular(ds, alunos, cpf, id, matricula).Some? ==>
              var r := Matricular(ds, alunos, cpf, id, matricula).value;
              && |r| == |ds|
              && 0 <= id < |Posicoes(ds, cpf)| && PrimeiroAluno(alunos, cpf, matricula).Some?
              && var p := Posicoes(ds, cpf)[id];
                 && ds[p] == Filter(ds, DaProfessor(cpf))[id]
                 && (forall k :: 0 <= k < |ds| && k != p ==> r[k] == ds[k])
                 && exists e :: r[p] == ds[p].(alunos := ds[p].alunos + [e])
                      && e.matricula == matricula && e.nota1va.None? && e.nota2va.None?
                      && e.nota3va.None? && e.notaFinal.None?
                      && e.nome == PrimeiroAluno(alunos, cpf, matricula).value.nome
                      && exists a :: a in alunos && a.matricula == matricula
                           && a.cpfProfessor == cpf && e.nome == a.nome
  {
    var ps := Posicoes(ds, cpf);
    PosicoesFilter(ds, cpf);
    var first := PrimeiroAluno(alunos, cpf, matricula);
    if first.None? {
      assert !AlunoCadastrado(alunos, matricula, cpf);
    } else {
      assert AlunoCadastrado(alunos, matricula, cpf);
    }
    if Matricular(ds, alunos, cpf, id, matricula).Some? {
      var p := ps[id];
      var a := first.value;
      var e := NovoInscrito(a);
      var r := Matricular(ds, alunos, cpf, id, matricula).value;
      assert r == ds[p := ds[p].(alunos := ds[p].alunos + [e])];
      assert r[p] == ds[p].(alunos := ds[p].alunos + [e]);
      assert a in alunos;
    }
  }

  /** Enrolment keeps the matrículas of every discipline unique. */
  lemma EnrolmentKeepsMatriculasDistinct(ds: seq<Disciplina>, alunos: seq<Aluno>, cpf: string, id: int, matricula: string)
    requires forall k :: 0 <= k < |ds| ==> MatriculasDistintas(ds[k].alunos)
    requires Matricular(ds, alunos, cpf, id, matricula).Some?
    ensures var r := Matricular(ds, alunos, cpf, id, matricula).value;
            forall k :: 0 <= k < |r| ==> MatriculasDistintas(r[k].alunos)
  {
    var ps := Posicoes(ds, cpf);
    var p := ps[id];
    var a := PrimeiroAluno(alunos, cpf, matricula).value;
    var old_ := ds[p].alunos;
    var grown := old_ + [NovoInscrito(a)];
    assert a.matricula == matricula;
    forall i, j | 0 <= i < j < |grown| ensures grown[i].matricula != grown[j].matricula {
      if j == |old_| {
        assert grown[i] == old_[i] && grown[j].matricula == matricula;
      } else {
        assert grown[i] == old_[i] && grown[j] == old_[j];
      }
    }
  }

  // ---------------------------------------------------------------------
  // Pass/fail status (`detalhe_disciplina`, the table of enrolled students)

  datatype Situacao = APV | RPV

  /** `media_geral` and `situacao` of one enrolled student. */
  datatype Resultado = Resultado(mediaGeral: Option<real>, situacao: Option<Situacao>)

  function Decidir(media: real): Situacao {
    if media >= 7.0 then APV else RPV
  }

  /** The status of one student from the grades present. A mean of 1VA and
      2VA of at least 7 approves; below that, with 3VA the mean of three
      approves at 7, and otherwise the final grade decides with the mean of
      four; without 3VA the final grade decides with the mean of three. A
      status is computed only once both 1VA and 2VA are present. */
  function Avaliar(a: Inscrito): (r: Resultado)
    ensures r.situacao.Some? <==> r.mediaGeral.Some?
    ensures r.situacao == Some(APV) <==> r.mediaGeral.Some? && r.mediaGeral.value >= 7.0
    ensures r.situacao.Some? ==> a.nota1va.Some? && a.nota2va.Some?
    ensures r.situacao == Some(RPV) ==> a.notaFinal.Some?
    ensures a.nota1va.None? || a.nota2va.None? ==> r == Resultado(None, None)
    ensures a.nota1va.Some? && a.nota2va.Some? ==>
              var s2 := a.nota1va.value + a.nota2va.value;
              && (r.situacao == Some(APV) <==>
                    || s2 / 2.0 >= 7.0
                    || (a.nota3va.Some? && (s2 + a.nota3va.value) / 3.0 >= 7.0)
                    || (a.nota3va.Some? && a.notaFinal.Some?
                        && (s2 + a.nota3va.value + a.notaFinal.value) / 4.0 >= 7.0)
                    || (a.nota3va.None? && a.notaFinal.Some? && (s2 + a.notaFinal.value) / 3.0 >= 7.0))
              && (r.situacao.None? <==>
                    s2 / 2.0 < 7.0 && a.notaFinal.None?
                    && (a.nota3va.None? || (s2 + a.nota3va.value) / 3.0 < 7.0))
    ensures a.nota1va.Some? && a.nota2va.Some? ==>
              var s2 := a.nota1va.value + a.nota2va.value;
              && (s2 / 2.0 >= 7.0 ==> r.mediaGeral == Some(s2 / 2.0))
              && (s2 / 2.0 < 7.0 && a.nota3va.Some? && (s2 + a.nota3va.value) / 3.0 >= 7.0 ==>
                    r.mediaGeral == Some((s2 + a.nota3va.value) / 3.0))
              && (s2 / 2.0 < 7.0 && a.nota3va.Some? && (s2 + a.nota3va.value) / 3.0 < 7.0
                  && a.notaFinal.Some? ==>
                    r.mediaGeral == Some((s2 + a.nota3va.value + a.notaFinal.value) / 4.0))
              && (s2 / 2.0 < 7.0 && a.nota3va.None? && a.notaFinal.Some? ==>
                    r.mediaGeral == Some((s2 + a.notaFinal.value) / 3.0))
  {
    if a.nota1va.None? || a.nota2va.None? then Resultado(None, None)
    else
      var n1 := a.nota1va.value;
      var n2 := a.nota2va.value;
      var media := (n1 + n2) / 2.0;
      if media >= 7.0 then Resultado(Some(media), Some(APV))
      else if a.nota3va.Some? then
        var media3 := (n1 + n2 + a.nota3va.value) / 3.0;
        if media3 >= 7.0 then Resultado(Some(media3), Some(APV))
        else if a.notaFinal.Some? then
          var mediaFinal := (n1 + n2 + a.nota3va.value + a.notaFinal.value) / 4.0;
          Resultado(Some(mediaFinal), Some(Decidir(mediaFinal)))
        else Resultado(None, None)
      else if a.notaFinal.Some? then
        var mediaFinal := (n1 + n2 + a.notaFinal.value) / 3.0;
        Resultado(Some(mediaFinal), Some(Decidir(mediaFinal)))
      else Resultado(None, None)
  }

  /** The same grades are present in both and none is lower in `b`. */
  predicate NoLower(x: Option<real>, y: Option<real>) {
    x.None? == y.None? && (x.Some? ==> x.value <= y.value)
  }

  predicate Raised(a: Inscrito, b: Inscrito) {
    && NoLower(a.nota1va, b.nota1va) && NoLower(a.nota2va, b.nota2va)
    && NoLower(a.nota3va, b.nota3va) && NoLower(a.notaFinal, b.notaFinal)
  }

  /** Higher grades never undo an approval or leave a decided status
      undecided. */
  lemma {:induction false} RaisingGradesKeepsApproval(a: Inscrito, b: Inscrito)
    requires Raised(a, b)
    ensures Avaliar(a).situacao == Some(APV) ==> Avaliar(b).situacao == Some(APV)
    ensures Avaliar(a).situacao.Some? ==> Avaliar(b).situacao.Some?
  {
    if a.nota1va.Some? && a.nota2va.Some? {
      var s2 := a.nota1va.value + a.nota2va.value;
      var t2 := b.nota1va.value + b.nota2va.value;
      assert s2 <= t2;
      if a.nota3va.Some? {
        assert s2 + a.nota3va.value <= t2 + b.nota3va.value;
        if a.notaFinal.Some? {
          assert s2 + a.nota3va.value + a.notaFinal.value <= t2 + b.nota3va.value + b.notaFinal.value;
        }
      } else if a.notaFinal.Some? {
        assert s2 + a.notaFinal.value <= t2 + b.notaFinal.value;
      }
    }
  }

  /** A student below 7 in both the two- and three-grade means, with 3VA and
      no final grade yet, has no status; adding the final grade decides it. */
  lemma FinalGradeDecides(a: Inscrito, f: real)
    requires a.nota1va.Some? && a.nota2va.Some? && a.nota3va.Some? && a.notaFinal.None?
    requires a.nota1va.value + a.nota2va.value < 14.0
    requires a.nota1va.value + a.nota2va.value + a.nota3va.value < 21.0
    ensures Avaliar(a) == Resultado(None, None)
    ensures var m := (a.nota1va.value + a.nota2va.value + a.nota3va.value + f) / 4.0;
            Avaliar(a.(notaFinal := Some(f))) == Resultado(Some(m), Some(Decidir(m)))
  {
  }

  // ---------------------------------------------------------------------
  // Grade from the answer-sheet reader (`aplicar_nota_omr`)

  datatype Campo = Nota1VA | Nota2VA | Nota3VA | NotaFinal

  /** The field named by the evaluation: `1VA`, `2VA`, `3VA`, `Final`. */
  function CampoNota(avaliacao: string): Option<Campo> {
    if avaliacao == "1VA" then Some(Nota1VA)
    else if avaliacao == "2VA" then Some(Nota2VA)
    else if avaliacao == "3VA" then Some(Nota3VA)
    else if avaliacao == "Final" then Some(NotaFinal)
    else None
  }

  /** Exactly the four evaluation names are mapped, each to its own field. */
  lemma CampoNotaSpec(a: string, b: string)
    ensures CampoNota(a).Some? <==> a == "1VA" || a == "2VA" || a == "3VA" || a == "Final"
    ensures CampoNota(a).Some? && CampoNota(a) == CampoNota(b) ==> a == b
  {
  }

  function Nota(a: Inscrito, c: Campo): Option<real> {
    match c
    case Nota1VA => a.nota1va
    case Nota2VA => a.nota2va
    case Nota3VA => a.nota3va
    case NotaFinal => a.notaFinal
  }

  /** `aluno[campo_nota] = nota`: that field holds the grade, every other
      field is as before. */
  function ComNota(a: Inscrito, c: Campo, nota: real): (b: Inscrito)
    ensures b.matricula == a.matricula && b.nome == a.nome
    ensures Nota(b, c) == Some(nota)
    ensures forall c' :: c' != c ==> Nota(b, c') == Nota(a, c')
  {
    match c
    case Nota1VA => a.(nota1va := Some(nota))
    case Nota2VA => a.(nota2va := Some(nota))
    case Nota3VA => a.(nota3va := Some(nota))
    case NotaFinal => a.(notaFinal := Some(nota))
  }

  /** Entry `i` of discipline `d` is a student of the professor with that
      matrícula. */
  predicate Corresponde(ds: seq<Disciplina>, cpf: string, matricula: string, d: int, i: int) {
    0 <= d < |ds| && ds[d].cpfProfessor == cpf
    && 0 <= i < |ds[d].alunos| && ds[d].alunos[i].matricula == matricula
  }

  /** `(d, i)` is the first match of the nested loop over disciplines and
      their students. */
  predicate PrimeiraCorrespondencia(ds: seq<Disciplina>, cpf: string, matricula: string, d: int, i: int) {
    && Corresponde(ds, cpf, matricula, d, i)
    && (forall e, j :: 0 <= e < d && 0 <= j < |ds[e].alunos| ==> !Corresponde(ds, cpf, matricula, e, j))
    && (forall j :: 0 <= j < i ==> !Corresponde(ds, cpf, matricula, d, j))
  }

  predicate SemCorrespondencia(ds: seq<Disciplina>, cpf: string, matricula: string) {
    forall e, j :: 0 <= e < |ds| && 0 <= j < |ds[e].alunos| ==> !Corresponde(ds, cpf, matricula, e, j)
  }

  /** There is at most one first match. */
  lemma FirstMatchUnique(ds: seq<Disciplina>, cpf: string, matricula: string, d: int, i: int, d': int, i': int)
    requires PrimeiraCorrespondencia(ds, cpf, matricula, d, i)
    requires PrimeiraCorrespondencia(ds, cpf, matricula, d', i')
    ensures d == d' && i == i'
  {
  }

  /** The nested search loop of `aplicar_nota_omr`. */
  method LocalizarInscrito(ds: seq<Disciplina>, cpf: string, matricula: string)
      returns (achou: bool, d: nat, i: nat)
    ensures achou ==> PrimeiraCorrespondencia(ds, cpf, matricula, d, i)
    ensures !achou ==> SemCorrespondencia(ds, cpf, matricula)
  {
    d := 0;
    while d < |ds|
      invariant 0 <= d <= |ds|
      invariant forall e, j :: 0 <= e < d && 0 <= j < |ds[e].alunos| ==> !Corresponde(ds, cpf, matricula, e, j)
    {
      if ds[d].cpfProfessor == cpf {
        var j := 0;
        while j < |ds[d].alunos|
          invariant 0 <= j <= |ds[d].alunos|
          invariant forall k :: 0 <= k < j ==> !Corresponde(ds, cpf, matricula, d, k)
        {
          if ds[d].alunos[j].matricula == matricula {
            return true, d, j;
          }
          j := j + 1;
        }
      }
      d := d + 1;
    }
    return false, 0, 0;
  }

  /** The stored disciplines with field `c` of entry `i` of discipline `d`
      set to `nota`. */
  function ComNotaEm(ds: seq<Disciplina>, d: nat, i: nat, c: Campo, nota: real): (r: seq<Disciplina>)
    requires d < |ds| && i < |ds[d].alunos|
    ensures |r| == |ds| && r[d].nome == ds[d].nome && r[d].cpfProfessor == ds[d].cpfProfessor
    ensures |r[d].alunos| == |ds[d].alunos|
    ensures forall k :: 0 <= k < |ds| && k != d ==> r[k] == ds[k]
    ensures forall j :: 0 <= j < |ds[d].alunos| && j != i ==> r[d].alunos[j] == ds[d].alunos[j]
    ensures r[d].alunos[i] == ComNota(ds[d].alunos[i], c, nota)
  {
    ds[d := ds[d].(alunos := ds[d].alunos[i := ComNota(ds[d].alunos[i], c, nota)])]
  }

  /** Writing a grade keeps every discipline's matrículas unique. */
  lemma GradeKeepsMatriculasDistinct(ds: seq<Disciplina>, d: nat, i: nat, c: Campo, nota: real)
    requires d < |ds| && i < |ds[d].alunos|
    requires forall k :: 0 <= k < |ds| ==> MatriculasDistintas(ds[k].alunos)
    ensures var r := ComNotaEm(ds, d, i, c, nota);
            forall k :: 0 <= k < |r| ==> MatriculasDistintas(r[k].alunos)
  {
    var r := ComNotaEm(ds, d, i, c, nota);
    assert forall j :: 0 <= j < |r[d].alunos| ==> r[d].alunos[j].matricula == ds[d].alunos[j].matricula;
  }

  // ---------------------------------------------------------------------
  // Deleting a question (`excluir_questao`)

  function OutraQuestao(id: int): Questao -> bool {
    (q: Questao) => q.id != id
  }

  /** The filter removes every question with that id, keeps the others in
      order, and shortens the list exactly when some question had that
      id. */
  lemma DeletionSpec(qs: seq<Questao>, id: int)
    ensures var r := Filter(qs, OutraQuestao(id));
            && (|r| < |qs| <==> exists i :: 0 <= i < |qs| && qs[i].id == id)
            && (forall q :: q in r <==> q in qs && q.id != id)
  {
    FilterShrinks(qs, OutraQuestao(id));
    forall q ensures q in Filter(qs, OutraQuestao(id)) <==> q in qs && q.id != id {
      FilterMembers(qs, OutraQuestao(id), q);
    }
  }

  // ---------------------------------------------------------------------
  // Choosing the questions of a test (`gerar_prova`)

  function QuestaoDoProfessor(cpf: string): Questao -> bool {
    (q: Questao) => q.cpfProfessor == cpf
  }

  function NaDisciplina(nome: string): Questao -> bool {
    (q: Questao) => q.disciplinaNome == nome
  }

  /** The professor's questions, restricted to the discipline given in the
      address when there is one. */
  function QuestoesDisponiveis(qs: seq<Questao>, cpf: string, selecionada: string): seq<Questao> {
    var proprias := Filter(qs, QuestaoDoProfessor(cpf));
    if selecionada != "" then Filter(proprias, NaDisciplina(selecionada)) else proprias
  }

  /** The form's discipline filter; `todas` means no filter. */
  function QuestoesFiltradas(disponiveis: seq<Questao>, filtro: string): seq<Questao> {
    if filtro != "" && filtro != "todas" then Filter(disponiveis, NaDisciplina(filtro)) else disponiveis
  }

  /** The quantity check: `not (quantidade <= 0 or quantidade > len(...))`. */
  predicate QuantidadeValida(quantidade: int, filtradas: seq<Questao>) {
    !(quantidade <= 0 || quantidade > |filtradas|)
  }

  /** A quantity is accepted exactly when it lies between 1 and the number
      of filtered questions; those are the professor's questions of the
      selected and filtered disciplines, so an accepted quantity never
      exceeds the professor's questions. */
  lemma QuantitySpec(qs: seq<Questao>, cpf: string, selecionada: string, filtro: string, quantidade: int)
    ensures var f := QuestoesFiltradas(QuestoesDisponiveis(qs, cpf, selecionada), filtro);
            && (QuantidadeValida(quantidade, f) <==> 1 <= quantidade <= |f|)
            && (forall q :: q in f <==>
                  q in qs && q.cpfProfessor == cpf
                  && (selecionada != "" ==> q.disciplinaNome == selecionada)
                  && (filtro != "" && filtro != "todas" ==> q.disciplinaNome == filtro))
            && (QuantidadeValida(quantidade, f) ==> quantidade <= |Filter(qs, QuestaoDoProfessor(cpf))|)
  {
    var proprias := Filter(qs, QuestaoDoProfessor(cpf));
    var disp := QuestoesDisponiveis(qs, cpf, selecionada);
    var f := QuestoesFiltradas(disp, filtro);
    forall q
      ensures q in f <==>
                q in qs && q.cpfProfessor == cpf
                && (selecionada != "" ==> q.disciplinaNome == selecionada)
                && (filtro != "" && filtro != "todas" ==> q.disciplinaNome == filtro)
    {
      FilterMembers(qs, QuestaoDoProfessor(cpf), q);
      FilterMembers(proprias, NaDisciplina(selecionada), q);
      FilterMembers(disp, NaDisciplina(filtro), q);
    }
  }

  // ---------------------------------------------------------------------
  // The professor's students (`lista_alunos`)

  /** `key=lambda x: x['nome'].lower()`. */
  predicate PorNome(a: Aluno, b: Aluno) {
    LexLe(Lower(a.nome), Lower(b.nome))
  }

  function ListaAlunos(alunos: seq<Aluno>, cpf: string): seq<Aluno> {
    Sort(Filter(alunos, AlunoDoProfessor(cpf)), PorNome)
  }

  lemma PorNomeIsTotalPreorder()
    ensures TotalPreorder(PorNome)
  {
    forall a: Aluno, b: Aluno ensures PorNome(a, b) || PorNome(b, a) {
      LexLeTotal(Lower(a.nome), Lower(b.nome));
    }
    forall a: Aluno, b: Aluno, c: Aluno | PorNome(a, b) && PorNome(b, c) ensures PorNome(a, c) {
      LexLeTransitive(Lower(a.nome), Lower(b.nome), Lower(c.nome));
    }
  }

  /** The list holds exactly the professor's students, each as often as
      stored, ordered by lower-cased name, with students of equal
      lower-cased name in their stored order. */
  lemma StudentListSpec(alunos: seq<Aluno>, cpf: string)
    ensures var mine := Filter(alunos, AlunoDoProfessor(cpf));
            && SortedBy(ListaAlunos(alunos, cpf), PorNome)
            && multiset(ListaAlunos(alunos, cpf)) == multiset(mine)
            && (forall a :: a in ListaAlunos(alunos, cpf) <==> a in alunos && a.cpfProfessor == cpf)
            && (forall v :: Level(ListaAlunos(alunos, cpf), PorNome, v) == Level(mine, PorNome, v))
  {
    var mine := Filter(alunos, AlunoDoProfessor(cpf));
    PorNomeIsTotalPreorder();
    SortSorted(mine, PorNome);
    SortPermutes(mine, PorNome);
    forall a ensures a in ListaAlunos(alunos, cpf) <==> a in alunos && a.cpfProfessor == cpf {
      FilterMembers(alunos, AlunoDoProfessor(cpf), a);
      assert a in ListaAlunos(alunos, cpf) <==> a in multiset(ListaAlunos(alunos, cpf));
    }
    forall v {
      SortStable(mine, PorNome, v);
    }
  }

  // ---------------------------------------------------------------------
  // The stored data and the views that change it

  class Dados {
    var usuarios: seq<Usuario>
    var alunos: seq<Aluno>
    var disciplinas: seq<Disciplina>
    var questoes: seq<Questao>

    /** The uniqueness every view that adds records keeps. */
    ghost predicate Valid()
      reads this
    {
      && CpfsDistintos(usuarios)
      && AlunosDistintos(alunos)
      && forall k :: 0 <= k < |disciplinas| ==> MatriculasDistintas(disciplinas[k].alunos)
    }

    /** `load_data` without a stored file: every list empty. */
    constructor ()
      ensures usuarios == [] && alunos == [] && disciplinas == [] && questoes == []
      ensures Valid()
    {
      usuarios := [];
      alunos := [];
      disciplinas := [];
      questoes := [];
    }

    /** `cadastro_usuario`: appends the user when the checks pass. */
    method CadastroUsuario(cpf: string, nome: string, rg: string, email: string, senha: string)
        returns (erro: Option<ErroUsuario>)
      modifies this
      ensures erro == ValidarUsuario(old(usuarios), cpf, rg)
      ensures erro == None ==> usuarios == old(usuarios) + [Usuario(cpf, nome, rg, email, senha)]
      ensures erro != None ==> usuarios == old(usuarios)
      ensures alunos == old(alunos) && disciplinas == old(disciplinas) && questoes == old(questoes)
      ensures old(Valid()) ==> Valid()
    {
      erro := ValidarUsuario(usuarios, cpf, rg);
      if erro == None {
        var u := Usuario(cpf, nome, rg, email, senha);
        if Valid() {
          RegistrationKeepsCpfsDistinct(usuarios, u);
        }
        usuarios := usuarios + [u];
      }
    }

    /** `cadastrar_aluno`: appends the student when the checks pass. */
    method CadastrarAluno(cpf: string, matricula: string, nome: string)
        returns (erro: Option<ErroAluno>)
      modifies this
      ensures erro == ValidarAluno(old(alunos), matricula, nome, cpf)
      ensures erro == None ==> alunos == old(alunos) + [Aluno(matricula, nome, cpf)]
      ensures erro != None ==> alunos == old(alunos)
      ensures usuarios == old(usuarios) && disciplinas == old(disciplinas) && questoes == old(questoes)
      ensures old(Valid()) ==> Valid()
    {
      erro := ValidarAluno(alunos, matricula, nome, cpf);
      if erro == None {
        var a := Aluno(matricula, nome, cpf);
        if Valid() {
          StudentRegistrationKeepsPairsDistinct(alunos, a);
        }
        alunos := alunos + [a];
      }
    }

    /** `detalhe_disciplina` on POST: enrols the student when `Matricular`
        allows it. */
    method AdicionarAluno(cpf: string, disciplinaId: int, matricula: string) returns (sucesso: bool)
      modifies this
      ensures sucesso == Matricular(old(disciplinas), old(alunos), cpf, disciplinaId, matricula).Some?
      ensures sucesso ==> disciplinas == Matricular(old(disciplinas), old(alunos), cpf, disciplinaId, matricula).value
      ensures !sucesso ==> disciplinas == old(disciplinas)
      ensures usuarios == old(usuarios) && alunos == old(alunos) && questoes == old(questoes)
      ensures old(Valid()) ==> Valid()
    {
      var r := Matricular(disciplinas, alunos, cpf, disciplinaId, matricula);
      sucesso := r.Some?;
      if sucesso {
        if Valid() {
          EnrolmentKeepsMatriculasDistinct(disciplinas, alunos, cpf, disciplinaId, matricula);
        }
        disciplinas := r.value;
      }
    }

    /** `aplicar_nota_omr`: writes the grade into the mapped field of the
        first matching enrolment of the professor's disciplines; an unknown
        evaluation name or no match changes nothing. */
    method AplicarNotaOmr(cpf: string, matricula: string, avaliacao: string, nota: real)
        returns (sucesso: bool)
      modifies this
      ensures sucesso <==> CampoNota(avaliacao).Some? && !SemCorrespondencia(old(disciplinas), cpf, matricula)
      ensures !sucesso ==> disciplinas == old(disciplinas)
      ensures sucesso ==>
                exists d: nat, i: nat :: PrimeiraCorrespondencia(old(disciplinas), cpf, matricula, d, i)
                  && disciplinas == ComNotaEm(old(disciplinas), d, i, CampoNota(avaliacao).value, nota)
      ensures usuarios == old(usuarios) && alunos == old(alunos) && questoes == old(questoes)
      ensures old(Valid()) ==> Valid()
    {
      var campo := CampoNota(avaliacao);
      var achou, d, i := LocalizarInscrito(disciplinas, cpf, matricula);
      if campo.Some? && achou {
        if Valid() {
          GradeKeepsMatriculasDistinct(disciplinas, d, i, campo.value, nota);
        }
        disciplinas := ComNotaEm(disciplinas, d, i, campo.value, nota);
        sucesso := true;
      } else {
        sucesso := false;
      }
    }

    /** `excluir_questao`: without a logged-in professor nothing happens;
        otherwise every question with that id is removed, and success means
        the list got shorter. */
    method ExcluirQuestao(cpf: string, id: int) returns (sucesso: bool)
      modifies this
      ensures cpf == "" ==> !sucesso && questoes == old(questoes)
      ensures cpf != "" ==> questoes == Filter(old(questoes), OutraQuestao(id))
      ensures sucesso <==> |questoes| < |old(questoes)|
      ensures usuarios == old(usuarios) && alunos == old(alunos) && disciplinas == old(disciplinas)
      ensures old(Valid()) ==> Valid()
    {
      if cpf == "" {
        return false;
      }
      var originais := |questoes|;
      questoes := Filter(questoes, OutraQuestao(id));
      sucesso := |questoes| < originais;
    }
  }
}
