/**
 * The messages of the patient-data contract (secret-contract/src/msg.rs):
 * instantiation carries nothing, there are three commands and two queries,
 * and only the analyses query carries a viewing key.
 */
module ContractMsg {
  import opened ContractState

  datatype InstantiateMsg = InstantiateMsg

  datatype ExecuteMsg =
    | SaveAnalysis(patientId: string, content: string)
    | CreateViewingKey(patientId: string)
    | SaveDailyProgress(patientId: string, date: U64, tasks: seq<Task>, description: string)

  datatype QueryMsg =
    | GetAnalyses(patientId: string, viewingKey: string)
    | GetDailyProgress(patientId: string)

  /** The decoded answer of a query: `Vec<Analysis>` for `GetAnalyses`,
      `Vec<DailyProgress>` for `GetDailyProgress`. */
  datatype QueryAnswer =
    | Analyses(analyses: seq<Analysis>)
    | Progress(progress: seq<DailyProgress>)
}
