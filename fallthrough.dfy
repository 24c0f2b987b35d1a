/** The fallthrough rule-engine plugin: its table of supported PEPs (policy
    enforcement points), the stub handler of each PEP, and the three rule-engine
    operations that consult the table: `rule_exists`, `list_rules` and `exec_rule`. */
module Fallthrough {
  import opened ByteOrder

  /** The one error code the plugin produces; its numeric value belongs to the host. */
  datatype ErrorCode = SysNotSupported

  /** `irods::error`: `SUCCESS()`, or `ERROR(code, message)`. */
  datatype Status = Success | Error(code: ErrorCode, message: string)

  datatype LogLevel = LogNotice | LogError

  /** One call of the host's `rodsLog`, with the format already applied. */
  datatype LogRecord = LogRecord(level: LogLevel, text: string)

  /** What an operation returns together with the lines it logged, in order. */
  datatype Outcome = Outcome(status: Status, log: seq<LogRecord>)

  /** A `boost::any` rule argument; the plugin never looks inside one. */
  datatype HostValue = HostValue(handle: nat)

  /** The host's `irods::callback`; the plugin never calls it. */
  datatype Callback = Callback(handle: nat)

  /** The supported PEPs, kept in `strcmp` order so that they can be binary-searched. */
  const Peps: seq<string> := [
    "pep_api_coll_create_post",
    "pep_api_data_obj_close_post",
    "pep_api_data_obj_close_pre",
    "pep_api_data_obj_put_post",
    "pep_api_data_obj_rename_post",
    "pep_api_data_obj_unlink_post",
    "pep_api_rm_coll_post"
  ]

  /** Every handler's notice starts with this marker; the handler's name follows it. */
  const NoticeMarker: string := ">>> fallthrough::"

  const NotReallyAnError: string := "not really an error"

  /** The format string of the unsupported-rule message; `%s` receives the rule name. */
  const UnsupportedBefore: string := "[irods_rule_engine_plugin-fallthrough][rule => "
  const UnsupportedAfter: string := "] rule not supported in rule engine plugin"
  const UnsupportedFormat: string := UnsupportedBefore + "%s" + UnsupportedAfter

  lemma PepsNulFree()
    ensures forall i :: 0 <= i < |Peps| ==> NulFree(Peps[i])
  {
  }

  /** Each table entry is below the next one at the first byte where they differ. */
  lemma {:induction false} PepsNeighbourAscending(i: nat)
    requires i < |Peps| - 1
    ensures Less(Peps[i], Peps[i + 1])
  {
    var a, b := Peps[i], Peps[i + 1];
    var k := if i == 0 || i == 5 then 8 else if i == 1 then 24 else 17;
    assert a[..k] == b[..k];
    LessAtFirstDifference(a, b, k);
  }

  /** The table really is in `strcmp` order, hence free of duplicates. */
  lemma {:induction false} PepsStrictlyAscending()
    ensures StrictlyAscending(Peps)
  {
    forall i | 0 <= i < |Peps| - 1 ensures Less(Peps[i], Peps[i + 1]) {
      PepsNeighbourAscending(i);
    }
    AscendingFromNeighbours(Peps);
  }

  lemma PepsDistinct()
    ensures forall i, j :: 0 <= i < j < |Peps| ==> Peps[i] != Peps[j]
  {
  }

  //
  // PEP handlers
  //

  /** The functions of namespace `handler`, one per PEP. */
  datatype Handler =
    | CollCreatePost
    | DataObjClosePre
    | DataObjClosePost
    | DataObjPutPost
    | DataObjRenamePost
    | DataObjUnlinkPost
    | RmCollPost

  /** The identifier each handler is declared under. */
  function HandlerName(h: Handler): string
  {
    match h
    case CollCreatePost => "pep_api_coll_create_post"
    case DataObjClosePre => "pep_api_data_obj_close_pre"
    case DataObjClosePost => "pep_api_data_obj_close_post"
    case DataObjPutPost => "pep_api_data_obj_put_post"
    case DataObjRenamePost => "pep_api_data_obj_rename_post"
    case DataObjUnlinkPost => "pep_api_data_obj_unlink_post"
    case RmCollPost => "pep_api_rm_coll_post"
  }

  /** Running a handler: it logs a notice naming itself and declines with "not really an error",
      whatever the arguments and the callback. */
  function Handle(h: Handler, args: seq<HostValue>, effectHandler: Callback): (r: Outcome)
    ensures r.status == Error(SysNotSupported, NotReallyAnError)
    ensures |r.log| == 1 && r.log[0].level == LogNotice
  {
    match h
    case CollCreatePost => Declined(NoticeMarker + "pep_api_coll_create_post")
    case DataObjClosePre => Declined(NoticeMarker + "pep_api_data_obj_close_pre")
    case DataObjClosePost => Declined(NoticeMarker + "pep_api_data_obj_close_post")
    case DataObjPutPost => Declined(NoticeMarker + "pep_api_data_obj_put_post")
    case DataObjRenamePost => Declined(NoticeMarker + "pep_api_data_obj_rename_post")
    case DataObjUnlinkPost => Declined(NoticeMarker + "pep_api_data_obj_unlink_post")
    case RmCollPost => Declined(NoticeMarker + "pep_api_rm_coll_post")
  }

  /** The body every handler shares: log the notice, then `ERROR(SYS_NOT_SUPPORTED, "not really an error")`. */
  function Declined(notice: string): Outcome
  {
    Outcome(Error(SysNotSupported, NotReallyAnError), [LogRecord(LogNotice, notice)])
  }

  /** Each handler's notice is the plugin's marker followed by the handler's own name. */
  lemma HandlerNoticeNamesHandler(h: Handler, args: seq<HostValue>, effectHandler: Callback)
    ensures Handle(h, args, effectHandler).log == [LogRecord(LogNotice, NoticeMarker + HandlerName(h))]
  {
  }

  //
  // Rule-engine operations
  //

  /** `rule_exists`: binary search of the PEP table for the C string of `name`. */
  method RuleExists(name: string) returns (present: bool, status: Status)
    ensures present <==> CStr(name) in Peps
    ensures status == Success
  {
    var table := new string[|Peps|](i requires 0 <= i < |Peps| => Peps[i]);
    assert table[..] == Peps;
    PepsStrictlyAscending();
    PepsNulFree();
    present := BinarySearch(table, name);
    status := Success;
  }

  /** `std::binary_search` with the `strcmp` comparator: a lower bound for `key`,
      then a check that the entry found is not above `key`. */
  method BinarySearch(a: array<string>, key: string) returns (found: bool)
    requires StrictlyAscending(a[..])
    requires forall i :: 0 <= i < a.Length ==> NulFree(a[i])
    ensures found <==> CStr(key) in a[..]
  {
    var lo, hi := 0, a.Length;
    while lo < hi
      invariant 0 <= lo <= hi <= a.Length
      invariant forall i :: 0 <= i < lo ==> Less(a[i], key)
      invariant forall i :: hi <= i < a.Length ==> !Less(a[i], key)
      decreases hi - lo
    {
      var mid := lo + (hi - lo) / 2;
      if Less(a[mid], key) {
        forall i | 0 <= i < mid ensures Less(a[i], key) {
          LessTransitive(a[i], a[mid], key);
        }
        lo := mid + 1;
      } else {
        forall i | mid < i < a.Length ensures !Less(a[i], key) {
          if Less(a[i], key) {
            LessTransitive(a[mid], a[i], key);
          }
        }
        hi := mid;
      }
    }
    found := lo < a.Length && !Less(key, a[lo]);
    if found {
      StrcmpAntisymmetric(a[lo], key);
      StrcmpZeroIff(a[lo], key);
      CStrOfNulFree(a[lo]);
      assert a[..][lo] == CStr(key);
    } else if CStr(key) in a[..] {
      var j :| 0 <= j < a.Length && a[j] == CStr(key);
      CStrOfNulFree(a[j]);
      StrcmpZeroIff(a[j], key);
      StrcmpAntisymmetric(a[j], key);
      if lo < j {
        LessTransitive(key, a[lo], a[j]);
      }
    }
  }

  /** The caller-owned `std::vector<std::string>` that `list_rules` appends to. */
  class RuleVector {
    var elements: seq<string>

    constructor (initial: seq<string>)
      ensures elements == initial
    {
      elements := initial;
    }
  }

  /** `list_rules`: appends the PEP table, in table order, after what the caller's vector holds. */
  method ListRules(rules: RuleVector) returns (status: Status)
    modifies rules
    ensures rules.elements == old(rules.elements) + Peps
    ensures status == Success
  {
    rules.elements := rules.elements + Peps;
    status := Success;
  }

  /** Every name `list_rules` reports is one `rule_exists` recognises and `exec_rule` dispatches
      to a handler. */
  lemma ListedRuleExists(i: nat)
    requires i < |Peps|
    ensures CStr(Peps[i]) in Peps && Peps[i] in Handlers
  {
    PepsNulFree();
    CStrOfNulFree(Peps[i]);
    HandlersMatchPeps();
  }

  /** The function-local static map of `exec_rule`, keyed by the table entries. */
  const Handlers: map<string, Handler> := map[
    Peps[0] := CollCreatePost,
    Peps[1] := DataObjClosePost,
    Peps[2] := DataObjClosePre,
    Peps[3] := DataObjPutPost,
    Peps[4] := DataObjRenamePost,
    Peps[5] := DataObjUnlinkPost,
    Peps[6] := RmCollPost
  ]

  /** `exec_rule`: a rule in the handler map runs its handler; any other rule is logged as an
      error and declined. Either way the plugin declines, so rule engines after it still run. */
  function ExecRule(name: string, args: seq<HostValue>, effectHandler: Callback): (r: Outcome)
    ensures r.status.Error? && r.status.code == SysNotSupported
    ensures |r.log| == 1
    ensures r.log[0].level == LogNotice <==> name in Handlers
  {
    if name in Handlers then
      Handle(Handlers[name], args, effectHandler)
    else
      var text := UnsupportedBefore + CStr(name) + UnsupportedAfter;
      Outcome(Error(SysNotSupported, UnsupportedFormat), [LogRecord(LogError, text)])
  }

  //
  // Properties
  //

  /** The map holds exactly the table entries, and each entry dispatches to the handler of that name. */
  lemma HandlersMatchPeps()
    ensures forall name :: name in Handlers <==> name in Peps
    ensures forall name :: name in Handlers ==> HandlerName(Handlers[name]) == name
    ensures |Handlers| == |Peps|
  {
    HandlersDomain();
    HandlersByName();
  }

  lemma HandlersDomain()
    ensures Handlers.Keys == set i | 0 <= i < |Peps| :: Peps[i]
    ensures |Handlers| == |Peps|
  {
    PepsDistinct();
    DistinctElementsCount(Peps);
  }

  lemma HandlersByName()
    ensures forall name :: name in Handlers ==> HandlerName(Handlers[name]) == name
  {
  }

  lemma {:induction false} DistinctElementsCount(s: seq<string>)
    requires forall i, j :: 0 <= i < j < |s| ==> s[i] != s[j]
    ensures |set i | 0 <= i < |s| :: s[i]| == |s|
  {
    if |s| > 0 {
      var last := s[|s| - 1];
      var init := s[..|s| - 1];
      DistinctElementsCount(init);
      assert (set i | 0 <= i < |s| :: s[i]) == (set i | 0 <= i < |init| :: init[i]) + {last};
      assert last !in (set i | 0 <= i < |init| :: init[i]);
    }
  }

  /** Whenever `exec_rule` takes the handler path, `rule_exists` reports the name (its answer is
      `CStr(name) in Peps`); for a name without embedded NULs the converse holds too. */
  lemma DispatchAgreesWithRuleExists(name: string)
    ensures name in Handlers ==> CStr(name) in Peps
    ensures NulFree(name) ==> (name in Handlers <==> CStr(name) in Peps)
  {
    HandlersMatchPeps();
    if name in Handlers {
      PepsNulFree();
      var i :| 0 <= i < |Peps| && Peps[i] == name;
      CStrOfNulFree(Peps[i]);
    }
    if NulFree(name) {
      CStrOfNulFree(name);
    }
  }

  /** The two lookups disagree on a name with an embedded NUL: `rule_exists` compares only the
      bytes before it, `exec_rule` the whole string. */
  lemma EmbeddedNulSplitsLookups()
    ensures var name := Peps[6] + [Nul] + "x";
      CStr(name) in Peps && name !in Handlers
  {
    var name := Peps[6] + [Nul] + "x";
    PepsNulFree();
    assert CStr(name) == Peps[6] by {
      CStrOfNulFree(Peps[6]);
      CStrCutsAtNul(Peps[6], "x");
    }
    HandlersMatchPeps();
    assert name !in Peps by {
      forall i | 0 <= i < |Peps| ensures Peps[i] != name {
        assert name[|Peps[6]|] == Nul;
        if |Peps[i]| == |name| {
          assert Peps[i][|Peps[6]|] in Peps[i];
        }
      }
    }
  }

  lemma {:induction false} CStrCutsAtNul(s: string, t: string)
    requires NulFree(s)
    ensures CStr(s + [Nul] + t) == s
    decreases |s|
  {
    if |s| > 0 {
      assert (s + [Nul] + t)[1..] == s[1..] + [Nul] + t;
      assert NulFree(s[1..]) by {
        forall i | 0 <= i < |s[1..]| ensures s[1..][i] != Nul {
          assert s[1..][i] == s[i + 1];
        }
      }
      CStrCutsAtNul(s[1..], t);
      assert s == [s[0]] + s[1..];
    }
  }

  /** A supported PEP: one notice naming the rule, and the "not really an error" decline. */
  lemma ExecRuleOnPep(name: string, args: seq<HostValue>, effectHandler: Callback)
    requires name in Peps
    ensures ExecRule(name, args, effectHandler)
      == Outcome(Error(SysNotSupported, NotReallyAnError), [LogRecord(LogNotice, NoticeMarker + name)])
  {
  }

  /** Any other name: one error line naming the plugin and the rule (as its C string shows it),
      and a decline carrying the unformatted message. */
  lemma ExecRuleOnOtherName(name: string, args: seq<HostValue>, effectHandler: Callback)
    requires name !in Peps
    ensures ExecRule(name, args, effectHandler)
      == Outcome(Error(SysNotSupported, UnsupportedFormat),
                 [LogRecord(LogError, UnsupportedBefore + CStr(name) + UnsupportedAfter)])
  {
  }

  /** The answer depends on the name alone: arguments and callback are passed through unread,
      and nothing is remembered between calls. */
  lemma ExecRuleIgnoresArguments(name: string, args1: seq<HostValue>, cb1: Callback,
                                 args2: seq<HostValue>, cb2: Callback)
    ensures ExecRule(name, args1, cb1) == ExecRule(name, args2, cb2)
  {
  }
}
