/** Attack-chain patterns: greedy ordered matching, confidence and severity. */
module ChainPatterns {
  import opened Options
  import opened Subsequences
  import opened RealFacts

  /** MITRE ATT&CK tactics, by their identifiers. */
  datatype Tactic =
    TA0000 | TA0002 | TA0003 | TA0004 | TA0005 | TA0006 | TA0007 | TA0008 | TA0009 | TA0010 | TA0011

  datatype EventType =
    // Discovery
    | ProcessEnumeration | NetworkEnumeration | FileEnumeration | RegistryEnumeration
    | AccountEnumeration | ServiceEnumeration
    // Credential access
    | CredentialDump | LsassAccess | SamAccess | TokenManipulation
    // Execution
    | ShellExecution | ScriptExecution | LolbinExecution | RemoteExecution
    // Privilege escalation
    | PrivilegeEscalation | UacBypass | TokenElevation | KernelExploit
    // Lateral movement
    | RdpConnection | SmbConnection | WmiExecution | PsexecExecution | SshConnection
    // Collection
    | DataStaging | ArchiveCreation | FileAggregation | ClipboardAccess
    // Exfiltration
    | LargeDataTransfer | DnsExfiltration | HttpExfiltration | CloudUpload
    // Defense evasion
    | EtwTampering | AmsiBypass | LogClearing | TimestampModification | ProcessHollowing
    // Persistence
    | RegistryPersistence | ScheduledTaskCreation | ServiceInstallation | StartupModification
    // Command and control
    | BeaconCallback | C2Communication | DomainGeneration
    | SuspiciousActivity
  {
    function MitreTactic(): Tactic {
      match this
      case ProcessEnumeration | NetworkEnumeration | FileEnumeration | RegistryEnumeration
         | AccountEnumeration | ServiceEnumeration => TA0007
      case CredentialDump | LsassAccess | SamAccess | TokenManipulation => TA0006
      case ShellExecution | ScriptExecution | LolbinExecution | RemoteExecution => TA0002
      case PrivilegeEscalation | UacBypass | TokenElevation | KernelExploit => TA0004
      case RdpConnection | SmbConnection | WmiExecution | PsexecExecution | SshConnection => TA0008
      case DataStaging | ArchiveCreation | FileAggregation | ClipboardAccess => TA0009
      case LargeDataTransfer | DnsExfiltration | HttpExfiltration | CloudUpload => TA0010
      case EtwTampering | AmsiBypass | LogClearing | TimestampModification | ProcessHollowing => TA0005
      case RegistryPersistence | ScheduledTaskCreation | ServiceInstallation | StartupModification => TA0003
      case BeaconCallback | C2Communication | DomainGeneration => TA0011
      case SuspiciousActivity => TA0000
    }
  }

  datatype Pattern = Pattern(name: string, sequence: seq<EventType>, minEvents: nat, baseConfidence: real)

  datatype Severity = Low | Medium | High | Critical {
    function Rank(): nat {
      match this
      case Low => 0
      case Medium => 1
      case High => 2
      case Critical => 3
    }

    /** The confidence that gives this severity by itself; none is needed for the lowest. */
    function ConfidenceFloor(): real {
      match this
      case Low => 0.0
      case Medium => 0.5
      case High => 0.7
      case Critical => 0.9
    }

    /** The number of tactics that does. */
    function TacticFloor(): nat { if Low? then 0 else Rank() + 1 }
  }

  function SeverityFromConfidence(confidence: real, tactics: nat): Severity {
    if confidence >= 0.9 || tactics >= 4 then Critical
    else if confidence >= 0.7 || tactics >= 3 then High
    else if confidence >= 0.5 || tactics >= 2 then Medium
    else Low
  }

  lemma SeverityAtLeast(confidence: real, tactics: nat, severity: Severity)
    ensures SeverityFromConfidence(confidence, tactics).Rank() >= severity.Rank()
       <==> severity.Low? || confidence >= severity.ConfidenceFloor() || tactics >= severity.TacticFloor()
  {
  }

  // ---------- Greedy matching ----------

  /** How many leading stages of the pattern the single left-to-right pass consumes. */
  function MatchCount(stages: seq<EventType>, events: seq<EventType>): (k: nat)
    ensures k <= |stages| && k <= |events|
  {
    if events == [] then 0
    else
      var k := MatchCount(stages, events[..|events| - 1]);
      if k < |stages| && events[|events| - 1] == stages[k] then k + 1 else k
  }

  /** The stages consumed occur in order among the events ... */
  lemma {:induction false} GreedySound(stages: seq<EventType>, events: seq<EventType>)
    ensures IsSubsequence(stages[..MatchCount(stages, events)], events)
  {
    if events == [] {
      EmptyIsSubsequence(events);
    } else {
      var before, x := events[..|events| - 1], events[|events| - 1];
      assert events == before + [x];
      var k := MatchCount(stages, before);
      GreedySound(stages, before);
      if k < |stages| && x == stages[k] {
        Extend(stages[..k], before, x);
        assert stages[..k] + [x] == stages[..k + 1];
      } else {
        Weaken(stages[..k], before, x);
      }
    }
  }

  /** ... and no longer prefix of the pattern does: taking the earliest match loses nothing. */
  lemma {:induction false} GreedyOptimal(stages: seq<EventType>, events: seq<EventType>, j: nat)
    requires j <= |stages| && IsSubsequence(stages[..j], events)
    ensures j <= MatchCount(stages, events)
    decreases |events|
  {
    if j == 0 {
    } else if events == [] {
      NoLongerThanWhole(stages[..j], events);
    } else {
      var before, x := events[..|events| - 1], events[|events| - 1];
      assert events == before + [x];
      SplitLast(stages[..j], before, x);
      if stages[j - 1] == x {
        assert stages[..j][..j - 1] == stages[..j - 1];
        GreedyOptimal(stages, before, j - 1);
      } else {
        GreedyOptimal(stages, before, j);
      }
    }
  }

  /** A match of `k` of `n` stages counts from three fifths on, and scales the base confidence. */
  function MatchConfidence(base: real, k: nat, n: nat): Option<real>
    requires n > 0
  {
    var ratio := k as real / n as real;
    if ratio >= 0.6 then Some(base * ratio) else None
  }

  lemma MatchConfidenceThreshold(base: real, k: nat, n: nat)
    requires n > 0
    ensures MatchConfidence(base, k, n).Some? <==> 5 * k >= 3 * n
  {
    QuotientAtLeast(k as real, n as real, 0.6);
  }

  /** The confidence is the base confidence, cut down to the share of the stages consumed. */
  lemma MatchConfidenceShare(base: real, k: nat, n: nat)
    requires n > 0 && MatchConfidence(base, k, n).Some?
    ensures MatchConfidence(base, k, n).value * n as real == base * k as real
  {
    var ratio := k as real / n as real;
    assert ratio * n as real == k as real;
    assert base * ratio * n as real == base * (ratio * n as real);
  }

  lemma MatchConfidenceMonotone(base: real, k: nat, k': nat, n: nat)
    requires n > 0 && base >= 0.0 && k <= k' && MatchConfidence(base, k, n).Some?
    ensures MatchConfidence(base, k', n).Some?
    ensures MatchConfidence(base, k', n).value >= MatchConfidence(base, k, n).value
  {
    QuotientMonotone(k as real, k' as real, n as real);
    ProductMonotone(base, k as real / n as real, k' as real / n as real);
  }

  /** Confidence of one pattern, or none: too few events, or too few of the stages matched. */
  function PatternScore(p: Pattern, events: seq<EventType>): Option<real> {
    if |events| < p.minEvents || |p.sequence| == 0 then None
    else MatchConfidence(p.baseConfidence, MatchCount(p.sequence, events), |p.sequence|)
  }

  /** A pattern scores exactly when there are enough events and three fifths of its stages are consumed. */
  lemma ScoreThreshold(p: Pattern, events: seq<EventType>)
    ensures PatternScore(p, events).Some?
       <==> |events| >= p.minEvents && p.sequence != [] && 5 * MatchCount(p.sequence, events) >= 3 * |p.sequence|
  {
    if p.sequence != [] {
      MatchConfidenceThreshold(p.baseConfidence, MatchCount(p.sequence, events), |p.sequence|);
    }
  }

  /** An empty pattern divides zero by zero, and no comparison with the outcome holds. */
  method MatchPattern(p: Pattern, events: seq<EventType>) returns (confidence: Option<real>)
    ensures confidence == PatternScore(p, events)
    ensures confidence.Some? <==> |events| >= p.minEvents && p.sequence != []
                                  && exists j :: 0 <= j <= |p.sequence| && IsSubsequence(p.sequence[..j], events)
                                                 && 5 * j >= 3 * |p.sequence|
  {
    ScoreReachable(p, events);
    if |events| < p.minEvents {
      return None;
    }
    var patternIdx := 0;
    for i := 0 to |events|
      invariant patternIdx == MatchCount(p.sequence, events[..i])
    {
      assert events[..i + 1][..i] == events[..i];
      if patternIdx < |p.sequence| && events[i] == p.sequence[patternIdx] {
        patternIdx := patternIdx + 1;
      }
    }
    assert events[..|events|] == events;
    if |p.sequence| == 0 {
      return None;
    }
    return MatchConfidence(p.baseConfidence, patternIdx, |p.sequence|);
  }

  lemma ScoreReachable(p: Pattern, events: seq<EventType>)
    ensures PatternScore(p, events).Some?
       <==> |events| >= p.minEvents && p.sequence != []
            && exists j :: 0 <= j <= |p.sequence| && IsSubsequence(p.sequence[..j], events) && 5 * j >= 3 * |p.sequence|
  {
    ScoreThreshold(p, events);
    GreedySound(p.sequence, events);
    forall j | 0 <= j <= |p.sequence| && IsSubsequence(p.sequence[..j], events)
      ensures j <= MatchCount(p.sequence, events)
    {
      GreedyOptimal(p.sequence, events, j);
    }
  }

  // ---------- The best of several patterns ----------

  datatype Best = Best(pattern: Pattern, confidence: real)

  /** First pattern with the highest confidence; later ties do not replace it. */
  function BestMatch(patterns: seq<Pattern>, events: seq<EventType>): Option<Best> {
    if patterns == [] then None
    else
      var p := patterns[|patterns| - 1];
      var best := BestMatch(patterns[..|patterns| - 1], events);
      match PatternScore(p, events)
      case None => best
      case Some(c) => if best.None? || c > best.value.confidence then Some(Best(p, c)) else best
  }

  /** The first pattern with the highest score. */
  ghost predicate FirstBest(patterns: seq<Pattern>, events: seq<EventType>, i: nat) {
    && i < |patterns| && PatternScore(patterns[i], events).Some?
    && (forall j | 0 <= j < |patterns| && PatternScore(patterns[j], events).Some? ::
          PatternScore(patterns[j], events).value <= PatternScore(patterns[i], events).value)
    && (forall j | 0 <= j < i && PatternScore(patterns[j], events).Some? ::
          PatternScore(patterns[j], events).value < PatternScore(patterns[i], events).value)
  }

  lemma {:induction false} BestMatchIsFirst(patterns: seq<Pattern>, events: seq<EventType>) returns (i: nat)
    ensures var best := BestMatch(patterns, events);
            if best.None? then forall j | 0 <= j < |patterns| :: PatternScore(patterns[j], events).None?
            else FirstBest(patterns, events, i)
                 && best.value == Best(patterns[i], PatternScore(patterns[i], events).value)
  {
    i := 0;
    if patterns != [] {
      var n := |patterns| - 1;
      i := BestMatchIsFirst(patterns[..n], events);
      var best, score := BestMatch(patterns[..n], events), PatternScore(patterns[n], events);
      if score.Some? && (best.None? || score.value > best.value.confidence) {
        i := n;
      }
    }
  }

  /** The best match is an upper bound of all scores, attained first by the pattern it names. */
  lemma BestMatchIsMaximum(patterns: seq<Pattern>, events: seq<EventType>)
    ensures var best := BestMatch(patterns, events);
            && (best.None? <==> forall p | p in patterns :: PatternScore(p, events).None?)
            && (best.Some? ==>
                  && best.value.pattern in patterns
                  && PatternScore(best.value.pattern, events) == Some(best.value.confidence)
                  && (exists i: nat :: FirstBest(patterns, events, i) && patterns[i] == best.value.pattern)
                  && forall p | p in patterns && PatternScore(p, events).Some? ::
                       PatternScore(p, events).value <= best.value.confidence)
  {
    var i := BestMatchIsFirst(patterns, events);
  }

  ghost predicate NonNegative(patterns: seq<Pattern>) {
    forall p | p in patterns :: p.baseConfidence >= 0.0
  }

  /** One more event never lowers a pattern's score. */
  lemma ScoreMonotone(p: Pattern, events: seq<EventType>, x: EventType)
    requires p.baseConfidence >= 0.0
    requires PatternScore(p, events).Some?
    ensures PatternScore(p, events + [x]).Some?
    ensures PatternScore(p, events + [x]).value >= PatternScore(p, events).value
  {
    assert (events + [x])[..|events|] == events;
    MatchConfidenceMonotone(p.baseConfidence, MatchCount(p.sequence, events), MatchCount(p.sequence, events + [x]),
                            |p.sequence|);
  }

  /** A chain that matches some pattern keeps matching one, with no less confidence. */
  lemma BestMonotone(patterns: seq<Pattern>, events: seq<EventType>, x: EventType)
    requires NonNegative(patterns) && BestMatch(patterns, events).Some?
    ensures BestMatch(patterns, events + [x]).Some?
    ensures BestMatch(patterns, events + [x]).value.confidence >= BestMatch(patterns, events).value.confidence
  {
    BestMatchIsMaximum(patterns, events);
    BestMatchIsMaximum(patterns, events + [x]);
    ScoreMonotone(BestMatch(patterns, events).value.pattern, events, x);
  }

  ghost predicate UnitConfidence(patterns: seq<Pattern>) {
    forall p | p in patterns :: 0.0 <= p.baseConfidence <= 1.0
  }

  lemma MatchConfidenceInRange(base: real, k: nat, n: nat)
    requires 0.0 <= base <= 1.0 && k <= n && n > 0 && MatchConfidence(base, k, n).Some?
    ensures 0.0 <= MatchConfidence(base, k, n).value <= 1.0
  {
    var ratio := k as real / n as real;
    RatioBounds(k, n);
    ProductMonotone(base, 0.0, ratio);
    ProductMonotone(base, ratio, 1.0);
  }

  lemma BestInRange(patterns: seq<Pattern>, events: seq<EventType>)
    requires UnitConfidence(patterns) && BestMatch(patterns, events).Some?
    ensures 0.0 <= BestMatch(patterns, events).value.confidence <= 1.0
  {
    BestMatchIsMaximum(patterns, events);
    var p := BestMatch(patterns, events).value.pattern;
    MatchConfidenceInRange(p.baseConfidence, MatchCount(p.sequence, events), |p.sequence|);
  }

  // ---------- The built-in patterns ----------

  function LoadAttackPatterns(): (patterns: seq<Pattern>)
    ensures NonNegative(patterns) && UnitConfidence(patterns)
  {
    [ Pattern("Credential Theft Chain", [ProcessEnumeration, CredentialDump, SmbConnection], 3, 0.85),
      Pattern("Privilege Escalation Chain", [ScriptExecution, UacBypass, RegistryPersistence], 3, 0.80),
      Pattern("Data Exfiltration Chain", [FileEnumeration, DataStaging, ArchiveCreation, LargeDataTransfer], 3, 0.90),
      Pattern("Evasive Data Theft", [EtwTampering, LsassAccess, HttpExfiltration], 3, 0.95),
      Pattern("Ransomware Chain", [ServiceEnumeration, LogClearing, FileEnumeration, ArchiveCreation], 3, 0.90),
      Pattern("Living-off-the-Land Chain", [LolbinExecution, LolbinExecution, LolbinExecution], 3, 0.75),
      Pattern("C2 Establishment Chain", [ScriptExecution, DomainGeneration, BeaconCallback], 2, 0.85),
      Pattern("Token Manipulation Chain", [TokenManipulation, TokenElevation, ServiceInstallation], 2, 0.85) ]
  }
}
