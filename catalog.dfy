/**
 * The static tables of the calendar: weekday headings, month names and the
 * 2026 event catalog, with the facts the grid and the detail view rely on.
 */
module Catalog {
  import opened Optional
  import opened Dates
  import opened CalendarTypes

  /** Column headings of the grid, Sunday first. */
  const WEEKDAYS: seq<string> := ["Dom", "Seg", "Ter", "Qua", "Qui", "Sex", "Sab"]

  /** Month names; index i is the month the quick navigation opens for button i. */
  const MONTHS: seq<string> := [
    "Janeiro", "Fevereiro", "Março", "Abril", "Maio", "Junho",
    "Julho", "Agosto", "Setembro", "Outubro", "Novembro", "Dezembro"
  ]

  /** Seven headings starting on Sunday, and twelve months starting with January. */
  lemma TableShapes()
    ensures |WEEKDAYS| == 7 && WEEKDAYS[0] == "Dom" && WEEKDAYS[6] == "Sab"
    ensures |MONTHS| == 12 && MONTHS[0] == "Janeiro" && MONTHS[11] == "Dezembro"
  {
  }

  /**
   * National (Brazil) and São Paulo state/city dates of 2026: one array in
   * the source, grouped here by month and joined in the same order.
   */
  const EVENTS_2026: seq<CalendarEvent> :=
    JANEIRO + FEVEREIRO + MARCO + ABRIL + MAIO + JUNHO +
    JULHO + AGOSTO + SETEMBRO + OUTUBRO + NOVEMBRO + DEZEMBRO


  /** The January entries, in catalog order. */
  const JANEIRO: seq<CalendarEvent> := [
    CalendarEvent(
      "2026-01-01", "Confraternização Universal", Holiday,
      Some("Celebração do Ano Novo e da paz mundial."),
      Some("Inicie promoções de \"Ano Novo, Vida Nova\", focando em produtos para metas pessoais, organização e bem-estar.")),
    CalendarEvent(
      "2026-01-06", "Dia de Reis", Commemorative,
      Some("Data cristã que marca a visita dos Reis Magos a Jesus. Tradicionalmente, é o dia de desmontar a árvore de Natal."),
      Some("Última oportunidade para realizar um \"bota-fora\" dos estoques remanescentes de Natal com descontos agressivos.")),
    CalendarEvent(
      "2026-01-20", "Dia do Farmacêutico", Commemorative,
      Some("Homenagem aos profissionais da farmácia."),
      Some("Farmácias e perfumarias podem criar campanhas de saúde preventiva e oferecer descontos em vitaminas e dermocosméticos.")),
    CalendarEvent(
      "2026-01-24", "Dia dos Aposentados", Commemorative,
      Some("Dia de homenagear quem já contribuiu muito com o trabalho."),
      Some("Crie ofertas exclusivas para a terceira idade ou pacotes de turismo e lazer focados neste público.")),
    CalendarEvent(
      "2026-01-25", "Aniversário de São Paulo", Holiday,
      Some("Feriado municipal celebrando a fundação da maior cidade do Brasil."),
      Some("Restaurantes e comércios locais podem criar pratos ou produtos temáticos que celebrem a cultura paulistana (ex: virado à paulista).")),
    CalendarEvent(
      "2026-01-26", "Dia da Gula", Special,
      Some("Um dia para deixar a dieta de lado e aproveitar."),
      Some("Essencial para o setor de alimentação: ofereça rodízios, combos \"tamanho família\" ou sobremesas em dobro.")),
    CalendarEvent(
      "2026-01-30", "Dia da Saudade", Commemorative,
      Some("Dia para recordar pessoas e momentos queridos."),
      Some("Engaje nas redes sociais pedindo para os clientes postarem fotos antigas com seus produtos (TBT) ou relance um produto clássico."))
  ]

  /** The February entries, in catalog order. */
  const FEVEREIRO: seq<CalendarEvent> := [
    CalendarEvent(
      "2026-02-14", "Dia da Amizade", Special,
      Some("Embora o dia internacional seja em julho, muitos celebram o Valentine's Day como dia da amizade no Brasil."),
      Some("Promoções do tipo \"Compre 1 e leve outro para seu amigo\" funcionam muito bem.")),
    CalendarEvent(
      "2026-02-16", "Segunda de Carnaval", Special,
      Some("Ponto facultativo tradicional."),
      Some("Foco total em turismo, lazer e entretenimento. Bares e restaurantes devem preparar programações especiais.")),
    CalendarEvent(
      "2026-02-17", "Carnaval", Holiday,
      Some("A maior festa popular brasileira."),
      Some("Venda de fantasias, glitter, bebidas e kits para churrasco. O pós-festa (isotônicos, analgésicos) também tem alta demanda.")),
    CalendarEvent(
      "2026-02-18", "Quarta-feira de Cinzas", Special,
      Some("Início da Quaresma."),
      Some("Restaurantes podem começar a destacar opções de peixes e pratos sem carne vermelha."))
  ]

  /** The March entries, in catalog order. */
  const MARCO: seq<CalendarEvent> := [
    CalendarEvent(
      "2026-03-08", "Dia Internacional da Mulher", Commemorative,
      Some("Celebração das conquistas sociais, políticas e econômicas das mulheres."),
      Some("Vá além das flores: ofereça descontos reais em produtos de interesse feminino e destaque histórias inspiradoras de clientes ou colaboradoras.")),
    CalendarEvent(
      "2026-03-15", "Dia do Consumidor", Commemorative,
      Some("Data criada para reforçar os direitos dos consumidores."),
      Some("Muitas lojas fazem a \"Semana do Consumidor\". É uma espécie de \"Black Friday\" do primeiro semestre. Ofereça frete grátis e cupons.")),
    CalendarEvent(
      "2026-03-20", "Início do Outono", Special,
      Some("Mudança de estação, dias mais curtos e temperaturas amenas."),
      Some("Lançamento de coleções Outono/Inverno em moda. Cafeterias podem lançar bebidas quentes especiais."))
  ]

  /** The April entries, in catalog order. */
  const ABRIL: seq<CalendarEvent> := [
    CalendarEvent(
      "2026-04-01", "Dia da Mentira", Special,
      Some("Dia de brincadeiras e pegadinhas."),
      Some("Crie posts interativos e divertidos nas redes sociais (\"Verdade ou Mentira\"). Cuidado para não confundir o cliente com ofertas falsas.")),
    CalendarEvent(
      "2026-04-03", "Sexta-feira Santa", Holiday,
      Some("Data religiosa cristã que relembra a crucificação de Jesus."),
      Some("Alta procura por peixes, azeites e vinhos. Supermercados e peixarias devem reforçar o estoque.")),
    CalendarEvent(
      "2026-04-05", "Páscoa", Holiday,
      Some("Celebração da ressurreição. Dia de trocar ovos de chocolate."),
      Some("Ovos de Páscoa, chocolates e almoços em família. Restaurantes devem aceitar reservas com antecedência.")),
    CalendarEvent(
      "2026-04-21", "Tiradentes", Holiday,
      Some("Homenagem a Joaquim José da Silva Xavier, mártir da Inconfidência Mineira."),
      Some("Como é feriado nacional, o foco é em turismo de curta distância e lazer.")),
    CalendarEvent(
      "2026-04-22", "Descobrimento do Brasil", Commemorative,
      Some("Data histórica da chegada dos portugueses."),
      Some("Livrarias e instituições de ensino podem promover conteúdos sobre a história do país.")),
    CalendarEvent(
      "2026-04-28", "Dia do Frete Grátis", Special,
      Some("Data promocional focada no comércio eletrônico."),
      Some("O nome diz tudo: zere o custo de entrega para aumentar a taxa de conversão e atrair novos clientes online."))
  ]

  /** The May entries, in catalog order. */
  const MAIO: seq<CalendarEvent> := [
    CalendarEvent(
      "2026-05-01", "Dia do Trabalho", Holiday,
      Some("Celebração das conquistas dos trabalhadores."),
      Some("Ótima data para endomarketing: valorize sua equipe. Para o comércio, foca-se em itens de lazer e descanso (churrasco, bebidas).")),
    CalendarEvent(
      "2026-05-10", "Dia das Mães", Holiday,
      Some("A segunda data mais importante para o comércio brasileiro."),
      Some("Invista em kits de presentes, vale-presentes e campanhas emocionais. Setores de moda, beleza e floricultura têm alta demanda.")),
    CalendarEvent(
      "2026-05-25", "Dia do Orgulho Nerd", Special,
      Some("Também conhecido como Dia da Toalha."),
      Some("Lojas de games, livrarias e vestuário podem fazer promoções temáticas de cultura pop, Star Wars e tecnologia."))
  ]

  /** The June entries, in catalog order. */
  const JUNHO: seq<CalendarEvent> := [
    CalendarEvent(
      "2026-06-04", "Corpus Christi", Holiday,
      Some("Data religiosa comemorada com procissões e tapetes nas ruas."),
      Some("Feriado prolongado tradicional. Agências de viagem e hotéis devem focar em pacotes de \"escapada\".")),
    CalendarEvent(
      "2026-06-11", "Início da Copa do Mundo", Special,
      Some("Abertura do mundial de futebol sediado nos EUA, México e Canadá."),
      Some("Bares e restaurantes devem preparar infraestrutura de transmissão (TVs/Telões). Decoração verde e amarela é obrigatória no varejo.")),
    CalendarEvent(
      "2026-06-12", "Dia dos Namorados", Commemorative,
      Some("Celebração do amor e da união de casais."),
      Some("Jantares românticos, motéis, floriculturas e presentes personalizados. Ofereça opções de \"presentes de última hora\".")),
    CalendarEvent(
      "2026-06-21", "Início do Inverno", Special,
      Some("Chegada das temperaturas mais frias no hemisfério sul."),
      Some("Hora de vender roupas pesadas, cobertores, fondues, vinhos e aquecedores.")),
    CalendarEvent(
      "2026-06-24", "Dia de São João", Commemorative,
      Some("Auge das festas juninas."),
      Some("Decoração temática, venda de milho, amendoim, quentão e tecidos xadrez. Padarias podem vender kits de festa junina."))
  ]

  /** The July entries, in catalog order. */
  const JULHO: seq<CalendarEvent> := [
    CalendarEvent(
      "2026-07-09", "Revolução Constitucionalista", Holiday,
      Some("Feriado estadual em São Paulo, celebrando a revolta de 1932."),
      Some("Como é feriado apenas em SP, o turismo para o litoral e interior do estado aumenta significativamente.")),
    CalendarEvent(
      "2026-07-13", "Dia Mundial do Rock", Special,
      Some("Celebração do gênero musical."),
      Some("Bares podem contratar bandas cover. Lojas de roupa podem destacar camisetas de banda e coturnos.")),
    CalendarEvent(
      "2026-07-19", "Final da Copa do Mundo", Special,
      Some("Grande final do torneio mais importante do futebol mundial."),
      Some("Prepare-se para alta demanda de bebidas e carnes para churrasco. Se o Brasil chegar, o comércio para durante o jogo.")),
    CalendarEvent(
      "2026-07-20", "Dia do Amigo", Commemorative,
      Some("Mais uma oportunidade para celebrar a amizade."),
      Some("Restaurantes e bares podem oferecer \"double drink\" ou descontos para mesas grandes de amigos.")),
    CalendarEvent(
      "2026-07-26", "Dia dos Avós", Commemorative,
      Some("Data com cunho afetivo muito forte."),
      Some("Sugira presentes que evocam memória e conforto (pantufas, porta-retratos, cestas de café da manhã)."))
  ]

  /** The August entries, in catalog order. */
  const AGOSTO: seq<CalendarEvent> := [
    CalendarEvent(
      "2026-08-09", "Dia dos Pais", Holiday,
      Some("Homenagem à figura paterna."),
      Some("Foco em presentes masculinos: eletrônicos, ferramentas, bebidas artesanais e vestuário. Churrascarias ficam lotadas.")),
    CalendarEvent(
      "2026-08-15", "Dia dos Solteiros", Special,
      Some("Data para celebrar a liberdade e o amor próprio."),
      Some("Baladas e bares podem promover a \"Noite dos Solteiros\". O varejo pode focar em itens de indulgência pessoal.")),
    CalendarEvent(
      "2026-08-22", "Dia do Folclore", Commemorative,
      Some("Celebração da cultura popular brasileira."),
      Some("Escolas e livrarias podem promover eventos culturais e venda de livros nacionais."))
  ]

  /** The September entries, in catalog order. */
  const SETEMBRO: seq<CalendarEvent> := [
    CalendarEvent(
      "2026-09-07", "Independência do Brasil", Holiday,
      Some("Feriado nacional cívico."),
      Some("Feriado que movimenta o turismo nacional. O varejo pode usar as cores verde e amarelo em vitrines temáticas.")),
    CalendarEvent(
      "2026-09-15", "Dia do Cliente", Commemorative,
      Some("Dia criado especialmente para agradecer quem move o comércio."),
      Some("Não tente apenas vender: dê mimos, brindes ou descontos exclusivos como forma de agradecimento pela fidelidade.")),
    CalendarEvent(
      "2026-09-21", "Dia da Árvore", Commemorative,
      Some("Conscientização ambiental."),
      Some("Empresas podem distribuir sementes ou mudas como brinde, reforçando uma imagem sustentável.")),
    CalendarEvent(
      "2026-09-22", "Início da Primavera", Special,
      Some("Estação das flores."),
      Some("Renovação de vitrines com muitas cores e flores. Floriculturas e jardinagem têm pico de vendas."))
  ]

  /** The October entries, in catalog order. */
  const OUTUBRO: seq<CalendarEvent> := [
    CalendarEvent(
      "2026-10-04", "Eleições - 1º Turno", Holiday,
      Some("Dia de votação para Presidente, Governadores, Senadores e Deputados."),
      Some("Evite manifestações políticas na marca para não alienar clientes. O foco do dia é a cidadania.")),
    CalendarEvent(
      "2026-10-04", "Dia dos Animais", Commemorative,
      Some("Dia de São Francisco de Assis, padroeiro dos animais."),
      Some("Pet shops podem oferecer banhos promocionais, brindes para pets e feiras de adoção.")),
    CalendarEvent(
      "2026-10-12", "N. Sra. Aparecida / Crianças", Holiday,
      Some("Feriado religioso e Dia das Crianças."),
      Some("Data crucial para lojas de brinquedos e vestuário infantil. Ofereça atividades recreativas na loja para atrair as famílias.")),
    CalendarEvent(
      "2026-10-15", "Dia dos Professores", Commemorative,
      Some("Homenagem aos mestres."),
      Some("Papelarias e lojas de presentes devem montar kits prontos (\"lembrancinhas\") para alunos presentearem seus professores.")),
    CalendarEvent(
      "2026-10-25", "Eleições - 2º Turno", Holiday,
      Some("Rodada decisiva das eleições gerais."),
      Some("Atenção aos horários de funcionamento. Garanta que colaboradores tenham tempo hábil para votar.")),
    CalendarEvent(
      "2026-10-31", "Halloween", Special,
      Some("O Dia das Bruxas tem ganhado muita força no Brasil."),
      Some("Festas temáticas, venda de doces, fantasias e maquiagem artística. Decore a loja para atrair atenção."))
  ]

  /** The November entries, in catalog order. */
  const NOVEMBRO: seq<CalendarEvent> := [
    CalendarEvent(
      "2026-11-02", "Finados", Holiday,
      Some("Dia de respeito e memória aos falecidos."),
      Some("Floriculturas são o foco principal. O comércio em geral deve manter um tom respeitoso.")),
    CalendarEvent(
      "2026-11-15", "Proclamação da República", Holiday,
      Some("Feriado histórico nacional."),
      Some("Mais um feriado que beneficia o turismo e o lazer de fim de semana.")),
    CalendarEvent(
      "2026-11-20", "Dia da Consciência Negra", Holiday,
      Some("Reflexão sobre a inserção do negro na sociedade brasileira. Agora feriado nacional."),
      Some("Promova a literatura e a cultura afro-brasileira. Dê espaço para criadores e empreendedores negros.")),
    CalendarEvent(
      "2026-11-27", "Black Friday", Special,
      Some("A maior data de descontos do varejo mundial."),
      Some("Prepare seu estoque e logística. Ofereça descontos agressivos e reais. O consumidor espera por oportunidades imperdíveis."))
  ]

  /** The December entries, in catalog order. */
  const DEZEMBRO: seq<CalendarEvent> := [
    CalendarEvent(
      "2026-12-21", "Início do Verão", Special,
      Some("Estação mais quente do ano e férias escolares."),
      Some("Moda praia, protetor solar, sorveterias e academias (projeto verão) estão em alta.")),
    CalendarEvent(
      "2026-12-24", "Véspera de Natal", Holiday,
      Some("Últimos preparativos para o Natal."),
      Some("Horário estendido de funcionamento para atender os atrasados. Foco em presentes fáceis de escolher.")),
    CalendarEvent(
      "2026-12-25", "Natal", Holiday,
      Some("A data mais importante do ano para o comércio cristão ocidental."),
      Some("O foco muda para o pós-venda: facilite trocas para fidelizar o cliente que ganhou o presente.")),
    CalendarEvent(
      "2026-12-31", "Véspera de Ano Novo", Holiday,
      Some("Preparação para o Réveillon."),
      Some("Venda de roupas brancas, espumantes, lentilha e romã. Supermercados ficam lotados."))
  ]


  /** Orders dates by year, then month, then day (the number yyyyMMdd). */
  function DateKey(d: Date): int {
    d.year * 10000 + d.month * 100 + d.day
  }

  /** The sort key of a date text: the number it names, 0 if it names no date. */
  function TextKey(t: string): int {
    match ParseIsoDate(t)
    case Some(d) => DateKey(d)
    case None => 0
  }

  /** The date text of every entry, in catalog order. */
  function DateTexts(s: seq<CalendarEvent>): (r: seq<string>)
    ensures |r| == |s|
    ensures forall i | 0 <= i < |s| :: r[i] == s[i].date
  {
    seq(|s|, i requires 0 <= i < |s| => s[i].date)
  }

  lemma DateTextsJoin(a: seq<CalendarEvent>, b: seq<CalendarEvent>)
    ensures DateTexts(a + b) == DateTexts(a) + DateTexts(b)
  {
  }

  /**
   * `t` names a valid 2026 date in months lo..hi, written exactly as the grid
   * formats dates (zero-padded yyyy-MM-dd).
   */
  predicate InMonths(t: string, lo: int, hi: int) {
    ParseIsoDate(t).Some? && ParseIsoDate(t).value.year == 2026 &&
    lo <= ParseIsoDate(t).value.month <= hi && Format(ParseIsoDate(t).value) == t
  }

  /** Every text names a 2026 date in months lo..hi. */
  predicate DatedWithin(ds: seq<string>, lo: int, hi: int) {
    forall i | 0 <= i < |ds| :: InMonths(ds[i], lo, hi)
  }

  /** Texts appear in date order. */
  predicate SortedByDate(ds: seq<string>) {
    forall i, j | 0 <= i < j < |ds| :: TextKey(ds[i]) <= TextKey(ds[j])
  }

  /** A date text that occurs twice names 4 October 2026. */
  predicate SharedOnlyOnOctober4(ds: seq<string>) {
    forall i, j | 0 <= i < j < |ds| && ds[i] == ds[j] :: ParseIsoDate(ds[i]) == Some(Date(2026, 10, 4))
  }

  /** The facts the catalog's date texts keep, for months lo..hi. */
  predicate WellDated(ds: seq<string>, lo: int, hi: int) {
    DatedWithin(ds, lo, hi) && SortedByDate(ds) && SharedOnlyOnOctober4(ds)
  }

  /** Every entry carries a non-empty description and a non-empty business tip. */
  predicate Described(s: seq<CalendarEvent>) {
    forall i | 0 <= i < |s| ::
      s[i].description.Some? && |s[i].description.value| > 0 &&
      s[i].businessTip.Some? && |s[i].businessTip.value| > 0
  }

  /** Text i names day days[i] of month m of 2026. */
  predicate ParsesTo(ds: seq<string>, m: int, days: seq<int>) {
    |ds| == |days| && forall i | 0 <= i < |ds| :: ParseIsoDate(ds[i]) == Some(Date(2026, m, days[i]))
  }

  /** Texts naming increasing days of one month (only 4 October repeating) are well dated. */
  lemma {:induction false} MonthWellDated(ds: seq<string>, m: int, days: seq<int>)
    requires ParsesTo(ds, m, days)
    requires forall i, j | 0 <= i < j < |days| :: days[i] < days[j] || (m == 10 && days[i] == days[j] == 4)
    ensures WellDated(ds, m, m)
  {
    forall i | 0 <= i < |ds|
      ensures InMonths(ds[i], m, m)
    {
      FormatParse(ds[i]);
    }
    forall i, j | 0 <= i < j < |ds|
      ensures TextKey(ds[i]) <= TextKey(ds[j])
    {
      assert TextKey(ds[i]) == DateKey(Date(2026, m, days[i]));
      assert TextKey(ds[j]) == DateKey(Date(2026, m, days[j]));
    }
  }

  lemma DescribedJoin(a: seq<CalendarEvent>, b: seq<CalendarEvent>)
    requires Described(a) && Described(b)
    ensures Described(a + b)
  {
  }

  /** Appending a well-dated later month keeps the texts well dated. */
  lemma {:induction false} JoinMonths(a: seq<string>, b: seq<string>, m: int)
    requires WellDated(a, 1, m)
    requires WellDated(b, m + 1, m + 1)
    ensures WellDated(a + b, 1, m + 1)
  {
    var ab := a + b;
    forall i, j | 0 <= i < |a| <= j < |ab|
      ensures TextKey(ab[i]) < TextKey(ab[j])
      ensures ab[i] != ab[j]
    {
      assert InMonths(a[i], 1, m);
      assert InMonths(b[j - |a|], m + 1, m + 1);
    }
  }


  lemma JanuaryDays()
    ensures WellDated(["2026-01-01", "2026-01-06", "2026-01-20", "2026-01-24", "2026-01-25", "2026-01-26", "2026-01-30"], 1, 1)
  {
    assert ParseIsoDate("2026-01-01") == Some(Date(2026, 1, 1));
    assert ParseIsoDate("2026-01-06") == Some(Date(2026, 1, 6));
    assert ParseIsoDate("2026-01-20") == Some(Date(2026, 1, 20));
    assert ParseIsoDate("2026-01-24") == Some(Date(2026, 1, 24));
    assert ParseIsoDate("2026-01-25") == Some(Date(2026, 1, 25));
    assert ParseIsoDate("2026-01-26") == Some(Date(2026, 1, 26));
    assert ParseIsoDate("2026-01-30") == Some(Date(2026, 1, 30));
    MonthWellDated(["2026-01-01", "2026-01-06", "2026-01-20", "2026-01-24", "2026-01-25", "2026-01-26", "2026-01-30"], 1, [1, 6, 20, 24, 25, 26, 30]);
  }

  lemma JanuaryEntries()
    ensures DateTexts(JANEIRO) == ["2026-01-01", "2026-01-06", "2026-01-20", "2026-01-24", "2026-01-25", "2026-01-26", "2026-01-30"]
  {
  }

  lemma JanuaryDescribed()
    ensures Described(JANEIRO)
  {
  }


  lemma FebruaryDays()
    ensures WellDated(["2026-02-14", "2026-02-16", "2026-02-17", "2026-02-18"], 2, 2)
  {
    assert ParseIsoDate("2026-02-14") == Some(Date(2026, 2, 14));
    assert ParseIsoDate("2026-02-16") == Some(Date(2026, 2, 16));
    assert ParseIsoDate("2026-02-17") == Some(Date(2026, 2, 17));
    assert ParseIsoDate("2026-02-18") == Some(Date(2026, 2, 18));
    MonthWellDated(["2026-02-14", "2026-02-16", "2026-02-17", "2026-02-18"], 2, [14, 16, 17, 18]);
  }

  lemma FebruaryEntries()
    ensures DateTexts(FEVEREIRO) == ["2026-02-14", "2026-02-16", "2026-02-17", "2026-02-18"]
  {
  }

  lemma FebruaryDescribed()
    ensures Described(FEVEREIRO)
  {
  }


  lemma MarchDays()
    ensures WellDated(["2026-03-08", "2026-03-15", "2026-03-20"], 3, 3)
  {
    assert ParseIsoDate("2026-03-08") == Some(Date(2026, 3, 8));
    assert ParseIsoDate("2026-03-15") == Some(Date(2026, 3, 15));
    assert ParseIsoDate("2026-03-20") == Some(Date(2026, 3, 20));
    MonthWellDated(["2026-03-08", "2026-03-15", "2026-03-20"], 3, [8, 15, 20]);
  }

  lemma MarchEntries()
    ensures DateTexts(MARCO) == ["2026-03-08", "2026-03-15", "2026-03-20"]
  {
  }

  lemma MarchDescribed()
    ensures Described(MARCO)
  {
  }


  lemma AprilDays()
    ensures WellDated(["2026-04-01", "2026-04-03", "2026-04-05", "2026-04-21", "2026-04-22", "2026-04-28"], 4, 4)
  {
    assert ParseIsoDate("2026-04-01") == Some(Date(2026, 4, 1));
    assert ParseIsoDate("2026-04-03") == Some(Date(2026, 4, 3));
    assert ParseIsoDate("2026-04-05") == Some(Date(2026, 4, 5));
    assert ParseIsoDate("2026-04-21") == Some(Date(2026, 4, 21));
    assert ParseIsoDate("2026-04-22") == Some(Date(2026, 4, 22));
    assert ParseIsoDate("2026-04-28") == Some(Date(2026, 4, 28));
    MonthWellDated(["2026-04-01", "2026-04-03", "2026-04-05", "2026-04-21", "2026-04-22", "2026-04-28"], 4, [1, 3, 5, 21, 22, 28]);
  }

  lemma AprilEntries()
    ensures DateTexts(ABRIL) == ["2026-04-01", "2026-04-03", "2026-04-05", "2026-04-21", "2026-04-22", "2026-04-28"]
  {
  }

  lemma AprilDescribed()
    ensures Described(ABRIL)
  {
  }


  lemma MayDays()
    ensures WellDated(["2026-05-01", "2026-05-10", "2026-05-25"], 5, 5)
  {
    assert ParseIsoDate("2026-05-01") == Some(Date(2026, 5, 1));
    assert ParseIsoDate("2026-05-10") == Some(Date(2026, 5, 10));
    assert ParseIsoDate("2026-05-25") == Some(Date(2026, 5, 25));
    MonthWellDated(["2026-05-01", "2026-05-10", "2026-05-25"], 5, [1, 10, 25]);
  }

  lemma MayEntries()
    ensures DateTexts(MAIO) == ["2026-05-01", "2026-05-10", "2026-05-25"]
  {
  }

  lemma MayDescribed()
    ensures Described(MAIO)
  {
  }


  lemma JuneDays()
    ensures WellDated(["2026-06-04", "2026-06-11", "2026-06-12", "2026-06-21", "2026-06-24"], 6, 6)
  {
    assert ParseIsoDate("2026-06-04") == Some(Date(2026, 6, 4));
    assert ParseIsoDate("2026-06-11") == Some(Date(2026, 6, 11));
    assert ParseIsoDate("2026-06-12") == Some(Date(2026, 6, 12));
    assert ParseIsoDate("2026-06-21") == Some(Date(2026, 6, 21));
    assert ParseIsoDate("2026-06-24") == Some(Date(2026, 6, 24));
    MonthWellDated(["2026-06-04", "2026-06-11", "2026-06-12", "2026-06-21", "2026-06-24"], 6, [4, 11, 12, 21, 24]);
  }

  lemma JuneEntries()
    ensures DateTexts(JUNHO) == ["2026-06-04", "2026-06-11", "2026-06-12", "2026-06-21", "2026-06-24"]
  {
  }

  lemma JuneDescribed()
    ensures Described(JUNHO)
  {
  }


  lemma JulyDays()
    ensures WellDated(["2026-07-09", "2026-07-13", "2026-07-19", "2026-07-20", "2026-07-26"], 7, 7)
  {
    assert ParseIsoDate("2026-07-09") == Some(Date(2026, 7, 9));
    assert ParseIsoDate("2026-07-13") == Some(Date(2026, 7, 13));
    assert ParseIsoDate("2026-07-19") == Some(Date(2026, 7, 19));
    assert ParseIsoDate("2026-07-20") == Some(Date(2026, 7, 20));
    assert ParseIsoDate("2026-07-26") == Some(Date(2026, 7, 26));
    MonthWellDated(["2026-07-09", "2026-07-13", "2026-07-19", "2026-07-20", "2026-07-26"], 7, [9, 13, 19, 20, 26]);
  }

  lemma JulyEntries()
    ensures DateTexts(JULHO) == ["2026-07-09", "2026-07-13", "2026-07-19", "2026-07-20", "2026-07-26"]
  {
  }

  lemma JulyDescribed()
    ensures Described(JULHO)
  {
  }


  lemma AugustDays()
    ensures WellDated(["2026-08-09", "2026-08-15", "2026-08-22"], 8, 8)
  {
    assert ParseIsoDate("2026-08-09") == Some(Date(2026, 8, 9));
    assert ParseIsoDate("2026-08-15") == Some(Date(2026, 8, 15));
    assert ParseIsoDate("2026-08-22") == Some(Date(2026, 8, 22));
    MonthWellDated(["2026-08-09", "2026-08-15", "2026-08-22"], 8, [9, 15, 22]);
  }

  lemma AugustEntries()
    ensures DateTexts(AGOSTO) == ["2026-08-09", "2026-08-15", "2026-08-22"]
  {
  }

  lemma AugustDescribed()
    ensures Described(AGOSTO)
  {
  }


  lemma SeptemberDays()
    ensures WellDated(["2026-09-07", "2026-09-15", "2026-09-21", "2026-09-22"], 9, 9)
  {
    assert ParseIsoDate("2026-09-07") == Some(Date(2026, 9, 7));
    assert ParseIsoDate("2026-09-15") == Some(Date(2026, 9, 15));
    assert ParseIsoDate("2026-09-21") == Some(Date(2026, 9, 21));
    assert ParseIsoDate("2026-09-22") == Some(Date(2026, 9, 22));
    MonthWellDated(["2026-09-07", "2026-09-15", "2026-09-21", "2026-09-22"], 9, [7, 15, 21, 22]);
  }

  lemma SeptemberEntries()
    ensures DateTexts(SETEMBRO) == ["2026-09-07", "2026-09-15", "2026-09-21", "2026-09-22"]
  {
  }

  lemma SeptemberDescribed()
    ensures Described(SETEMBRO)
  {
  }


  lemma OctoberDays()
    ensures WellDated(["2026-10-04", "2026-10-04", "2026-10-12", "2026-10-15", "2026-10-25", "2026-10-31"], 10, 10)
  {
    assert ParseIsoDate("2026-10-04") == Some(Date(2026, 10, 4));
    assert ParseIsoDate("2026-10-04") == Some(Date(2026, 10, 4));
    assert ParseIsoDate("2026-10-12") == Some(Date(2026, 10, 12));
    assert ParseIsoDate("2026-10-15") == Some(Date(2026, 10, 15));
    assert ParseIsoDate("2026-10-25") == Some(Date(2026, 10, 25));
    assert ParseIsoDate("2026-10-31") == Some(Date(2026, 10, 31));
    MonthWellDated(["2026-10-04", "2026-10-04", "2026-10-12", "2026-10-15", "2026-10-25", "2026-10-31"], 10, [4, 4, 12, 15, 25, 31]);
  }

  lemma OctoberEntries()
    ensures DateTexts(OUTUBRO) == ["2026-10-04", "2026-10-04", "2026-10-12", "2026-10-15", "2026-10-25", "2026-10-31"]
  {
  }

  lemma OctoberDescribed()
    ensures Described(OUTUBRO)
  {
  }


  lemma NovemberDays()
    ensures WellDated(["2026-11-02", "2026-11-15", "2026-11-20", "2026-11-27"], 11, 11)
  {
    assert ParseIsoDate("2026-11-02") == Some(Date(2026, 11, 2));
    assert ParseIsoDate("2026-11-15") == Some(Date(2026, 11, 15));
    assert ParseIsoDate("2026-11-20") == Some(Date(2026, 11, 20));
    assert ParseIsoDate("2026-11-27") == Some(Date(2026, 11, 27));
    MonthWellDated(["2026-11-02", "2026-11-15", "2026-11-20", "2026-11-27"], 11, [2, 15, 20, 27]);
  }

  lemma NovemberEntries()
    ensures DateTexts(NOVEMBRO) == ["2026-11-02", "2026-11-15", "2026-11-20", "2026-11-27"]
  {
  }

  lemma NovemberDescribed()
    ensures Described(NOVEMBRO)
  {
  }


  lemma DecemberDays()
    ensures WellDated(["2026-12-21", "2026-12-24", "2026-12-25", "2026-12-31"], 12, 12)
  {
    assert ParseIsoDate("2026-12-21") == Some(Date(2026, 12, 21));
    assert ParseIsoDate("2026-12-24") == Some(Date(2026, 12, 24));
    assert ParseIsoDate("2026-12-25") == Some(Date(2026, 12, 25));
    assert ParseIsoDate("2026-12-31") == Some(Date(2026, 12, 31));
    MonthWellDated(["2026-12-21", "2026-12-24", "2026-12-25", "2026-12-31"], 12, [21, 24, 25, 31]);
  }

  lemma DecemberEntries()
    ensures DateTexts(DEZEMBRO) == ["2026-12-21", "2026-12-24", "2026-12-25", "2026-12-31"]
  {
  }

  lemma DecemberDescribed()
    ensures Described(DEZEMBRO)
  {
  }


  lemma Assemble(jan: seq<CalendarEvent>, feb: seq<CalendarEvent>, mar: seq<CalendarEvent>, apr: seq<CalendarEvent>, may: seq<CalendarEvent>, jun: seq<CalendarEvent>, jul: seq<CalendarEvent>, aug: seq<CalendarEvent>, sep: seq<CalendarEvent>, oct: seq<CalendarEvent>, nov: seq<CalendarEvent>, dec: seq<CalendarEvent>)
    requires DateTexts(jan) == ["2026-01-01", "2026-01-06", "2026-01-20", "2026-01-24", "2026-01-25", "2026-01-26", "2026-01-30"] && Described(jan)
    requires DateTexts(feb) == ["2026-02-14", "2026-02-16", "2026-02-17", "2026-02-18"] && Described(feb)
    requires DateTexts(mar) == ["2026-03-08", "2026-03-15", "2026-03-20"] && Described(mar)
    requires DateTexts(apr) == ["2026-04-01", "2026-04-03", "2026-04-05", "2026-04-21", "2026-04-22", "2026-04-28"] && Described(apr)
    requires DateTexts(may) == ["2026-05-01", "2026-05-10", "2026-05-25"] && Described(may)
    requires DateTexts(jun) == ["2026-06-04", "2026-06-11", "2026-06-12", "2026-06-21", "2026-06-24"] && Described(jun)
    requires DateTexts(jul) == ["2026-07-09", "2026-07-13", "2026-07-19", "2026-07-20", "2026-07-26"] && Described(jul)
    requires DateTexts(aug) == ["2026-08-09", "2026-08-15", "2026-08-22"] && Described(aug)
    requires DateTexts(sep) == ["2026-09-07", "2026-09-15", "2026-09-21", "2026-09-22"] && Described(sep)
    requires DateTexts(oct) == ["2026-10-04", "2026-10-04", "2026-10-12", "2026-10-15", "2026-10-25", "2026-10-31"] && Described(oct)
    requires DateTexts(nov) == ["2026-11-02", "2026-11-15", "2026-11-20", "2026-11-27"] && Described(nov)
    requires DateTexts(dec) == ["2026-12-21", "2026-12-24", "2026-12-25", "2026-12-31"] && Described(dec)
    ensures WellDated(DateTexts(jan + feb + mar + apr + may + jun + jul + aug + sep + oct + nov + dec), 1, 12)
    ensures Described(jan + feb + mar + apr + may + jun + jul + aug + sep + oct + nov + dec)
  {
    JanuaryDays();
    FebruaryDays();
    DateTextsJoin(jan, feb);
    JoinMonths(DateTexts(jan), DateTexts(feb), 1);
    DescribedJoin(jan, feb);
    MarchDays();
    DateTextsJoin(jan + feb, mar);
    JoinMonths(DateTexts(jan + feb), DateTexts(mar), 2);
    DescribedJoin(jan + feb, mar);
    AprilDays();
    DateTextsJoin(jan + feb + mar, apr);
    JoinMonths(DateTexts(jan + feb + mar), DateTexts(apr), 3);
    DescribedJoin(jan + feb + mar, apr);
    MayDays();
    DateTextsJoin(jan + feb + mar + apr, may);
    JoinMonths(DateTexts(jan + feb + mar + apr), DateTexts(may), 4);
    DescribedJoin(jan + feb + mar + apr, may);
    JuneDays();
    DateTextsJoin(jan + feb + mar + apr + may, jun);
    JoinMonths(DateTexts(jan + feb + mar + apr + may), DateTexts(jun), 5);
    DescribedJoin(jan + feb + mar + apr + may, jun);
    JulyDays();
    DateTextsJoin(jan + feb + mar + apr + may + jun, jul);
    JoinMonths(DateTexts(jan + feb + mar + apr + may + jun), DateTexts(jul), 6);
    DescribedJoin(jan + feb + mar + apr + may + jun, jul);
    AugustDays();
    DateTextsJoin(jan + feb + mar + apr + may + jun + jul, aug);
    JoinMonths(DateTexts(jan + feb + mar + apr + may + jun + jul), DateTexts(aug), 7);
    DescribedJoin(jan + feb + mar + apr + may + jun + jul, aug);
    SeptemberDays();
    DateTextsJoin(jan + feb + mar + apr + may + jun + jul + aug, sep);
    JoinMonths(DateTexts(jan + feb + mar + apr + may + jun + jul + aug), DateTexts(sep), 8);
    DescribedJoin(jan + feb + mar + apr + may + jun + jul + aug, sep);
    OctoberDays();
    DateTextsJoin(jan + feb + mar + apr + may + jun + jul + aug + sep, oct);
    JoinMonths(DateTexts(jan + feb + mar + apr + may + jun + jul + aug + sep), DateTexts(oct), 9);
    DescribedJoin(jan + feb + mar + apr + may + jun + jul + aug + sep, oct);
    NovemberDays();
    DateTextsJoin(jan + feb + mar + apr + may + jun + jul + aug + sep + oct, nov);
    JoinMonths(DateTexts(jan + feb + mar + apr + may + jun + jul + aug + sep + oct), DateTexts(nov), 10);
    DescribedJoin(jan + feb + mar + apr + may + jun + jul + aug + sep + oct, nov);
    DecemberDays();
    DateTextsJoin(jan + feb + mar + apr + may + jun + jul + aug + sep + oct + nov, dec);
    JoinMonths(DateTexts(jan + feb + mar + apr + may + jun + jul + aug + sep + oct + nov), DateTexts(dec), 11);
    DescribedJoin(jan + feb + mar + apr + may + jun + jul + aug + sep + oct + nov, dec);
  }

  /**
   * The catalog's date texts are valid, zero-padded 2026 dates in date
   * order, only 4 October 2026 repeats, and every entry has both texts.
   */
  lemma CatalogWellFormed()
    ensures WellDated(DateTexts(EVENTS_2026), 1, 12)
    ensures Described(EVENTS_2026)
  {
    JanuaryEntries();
    JanuaryDescribed();
    FebruaryEntries();
    FebruaryDescribed();
    MarchEntries();
    MarchDescribed();
    AprilEntries();
    AprilDescribed();
    MayEntries();
    MayDescribed();
    JuneEntries();
    JuneDescribed();
    JulyEntries();
    JulyDescribed();
    AugustEntries();
    AugustDescribed();
    SeptemberEntries();
    SeptemberDescribed();
    OctoberEntries();
    OctoberDescribed();
    NovemberEntries();
    NovemberDescribed();
    DecemberEntries();
    DecemberDescribed();
    Assemble(JANEIRO, FEVEREIRO, MARCO, ABRIL, MAIO, JUNHO, JULHO, AGOSTO, SETEMBRO, OUTUBRO, NOVEMBRO, DEZEMBRO);
  }

}
